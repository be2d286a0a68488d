# bb-monitor verification

Models, in Dafny, of the parts of bb-monitor whose correctness is not visible from one function: the streaming MD5
object, the client delivery loop, the topic authorizer, the asynchronous call objects and the Kafka hand-off of the
ingestion server, the text formats that the proxies and the database read and write, and the scrambled tenant ids.
`dafny verify dfyconfig.toml` checks the whole project.

| module | what it models | how |
|---|---|---|
| `Md5Spec`, `Md5`, `Md5Vectors` | `libraries/bb_monitor_srv_utils/md5.cpp` | `Md5Spec` is the one-shot definition of RFC 1321, sections 3.1 to 3.5; `Md5.MD5` is the object over arrays, with its 32-bit counters and cursor written out; `Md5Vectors` works out three values of section A.5 step by step |
| `Delivery`, `MetricSink` | `libraries/bb_monitor_client_utils/bb_metric_sink.cpp` | `Delivery` is a state machine with one step for each atomic queue operation; `MetricSink.Sink` has the loops of the code, records every operation, and is tied by `Valid()` to the state machine |
| `Authorizer`, `SinkFactory` | `libraries/bb_monitor_srv_utils/grpc_topic_authorizer.cpp`, `programs/saas-services/bb-monitor-ingestion-srv/kafka_sink_facory.cpp` | the two tables as a function of the record history, and the objects that update their maps in place |
| `RpcLifecycle` | `main.cpp`, `put_metrics_call_data.h`, `put_metrics2_call_data.h` of the ingestion server | a state machine over completion-queue events, and a server object whose methods are the code's |
| `KafkaSink` | `bb_kafka_sink.h`, `bb_kafka_producer.cpp` of the ingestion server | a FIFO with retry, an explicit heap of malloc'd buffers, and the partitions |
| `Text`, `LineFraming`, `PrometheusLabels`, `PrometheusText`, `Hstore` | line framing of the log proxy, the Prometheus text parser, hstore text | parsers as loops, proved against recursive definitions, and printers to round-trip with |
| `RemoteWrite` | the remote-write exporter and the write proxy | both ends, and the trip between them |
| `ExportLoop` | the sending loop of `libraries/bb_monitor_client_utils/prometheus_sink2.cpp` | a state machine and an object tied to it, as for `Delivery` and `MetricSink` |
| `Ingestion` | the metrics path of the ingestion server | `Authorizer`, the sink lookup, `RpcLifecycle` and one `KafkaSink` for each sink, put together |
| `TenantId` | functions of `sql/sample/monitor.schema` | 32-bit integers as ranges of `int`, exclusive or bit by bit |

Where the source updates fields or arrays, a class with a loop is proved against a function of the inputs or of the
recorded run; the results about all runs and all inputs are lemmas about those functions. Readings of the clock and
replies of the network are parameters. Results on constructors, literal texts and single events fix what the functions
themselves say.

What the proofs brought to light in the code:

- The loop guard `i + blocksize <= length` of `MD5::update` wraps at 2^32. The exact lengths for which it lets a block past the
  end of the input through are in `Md5.CursorWraps`; `update` is proved for all others.
- A failed batch goes back to the queue in reverse (`Delivery.FailedBatchReversed`, and a run in
  `Delivery.TwoMessagesReversed`), so the order of two messages depends on the parity of the failures they shared
  (`Delivery.OrderAfterFailures`).
- `eof()` ignores the batch in flight, so `flush()` can return before anything is acknowledged
  (`Delivery.EofBeforeReply`; exactly when, in `Delivery.EofSettledExactly`).
- The `erase` of `"topic#api_key"` never removes anything, and the lookup does not compare the api key again: an api key
  an id had before still opens it, an empty secret hash lets an older secret pass, and an id whose key another id took
  over is refused (`Authorizer.OldApiKeyStillOpens`, `Authorizer.EmptyHashAcceptsOldSecret`,
  `Authorizer.OvertakenIsRefused`; the exact rules are `Authorizer.AnswersExactly` and
  `Authorizer.AgreesWithScanExactly`).
- A log message in `grpc_topic_authorizer.cpp` says that the branch for a missing record should never be taken. It is taken
  exactly if the last id filed under the key of the request is not live (`Authorizer.MissingRecordExactly`;
  `Authorizer.OvertakenIsRefused` takes it, `Authorizer.DeleteCanGoUnnoticed` deletes an id without taking it).
- The label parser passes a position as a length. For lists without commas in keys and values,
  `PrometheusLabels.LabelsRoundTripExactly` says exactly when that is harmless. It is for all non-empty values; an empty
  value in the middle can pick up what follows (`PrometheusLabels.EmptyValueInTheMiddle`) unless the next key is long
  enough (`PrometheusLabels.LongKeyProtects`).
- A read on a socket hands over one line at most, so complete lines can wait in the buffer for the next read
  (`LineFraming.CaughtUpExactly`, and a session in `LineFraming.SecondLineWaits`).
- Text ids of tenants are unique for ids of one sign, so for all the ids that the sample data creates
  (`TenantId.SchemaUniqueForOneSign`). Across the signs they are not, because `stringify_int` drops the sign: tenants 1 and
  -2116569833 share one (`TenantId.SchemaIdsCollide`), and all but two 32-bit ids have such a counterpart
  (`TenantId.EveryTextIdIsShared`, `TenantId.SchemaUniqueExactly`).
- The exporter drops a batch that the server refuses (`ExportLoop.RefusedIsDropped`), as a comment in the code says; only
  timeouts are retried.

## Model

| member | source | states |
|---|---|---|
| Md5Spec.BytesOf | libraries/bb_monitor_srv_utils/md5.cpp:148-156 | encoding a word gives four bytes that decode to the same word |
| Md5Spec.WordsOfBytes | libraries/bb_monitor_srv_utils/md5.cpp:136-156 | decode after encode is the identity on word arrays |
| Md5Spec.BytesOfWords | libraries/bb_monitor_srv_utils/md5.cpp:136-156 | encode after decode is the identity on byte arrays whose length is a multiple of four |
| Md5Spec.CircularShift | libraries/bb_monitor_srv_utils/md5.cpp:77-80 | shifting left and right and joining is the circular shift for every amount the rounds use |
| Md5Spec.CompressAllAppend | libraries/bb_monitor_srv_utils/md5.cpp:273-275 | compressing one more block continues the compression of the blocks before it |
| Md5.StatementIsOperation | libraries/bb_monitor_srv_utils/md5.cpp:60-98 | each FF, GG, HH or II statement is, at its position, the step of the table-driven loop, whose auxiliary functions and tables the values of `Md5Vectors` fix |
| Md5.FourSteps | libraries/bb_monitor_srv_utils/md5.cpp:166-236 | four consecutive statements with the registers in the order a, d, c, b are four steps of the table-driven loop |
| Md5.MessageOrder | libraries/bb_monitor_srv_utils/md5.cpp:166-236 | the word indices written out in the 64 statements are those the formulas of section 3.4 of RFC 1321 give |
| Md5.Round1 | libraries/bb_monitor_srv_utils/md5.cpp:166-182 | the sixteen FF statements are steps 1 to 16 |
| Md5.Round2 | libraries/bb_monitor_srv_utils/md5.cpp:184-200 | the sixteen GG statements are steps 17 to 32 |
| Md5.Round3 | libraries/bb_monitor_srv_utils/md5.cpp:202-218 | the sixteen HH statements are steps 33 to 48 |
| Md5.Round4 | libraries/bb_monitor_srv_utils/md5.cpp:220-236 | the sixteen II statements are steps 49 to 64 |
| Md5.Rounds | libraries/bb_monitor_srv_utils/md5.cpp:163-236 | the unrolled rounds equal the 64-step loop for every state and block |
| Md5.Or | libraries/bb_monitor_srv_utils/md5.cpp:139-141 | four shifted bytes joined by or are the little-endian word |
| Md5.Decode | libraries/bb_monitor_srv_utils/md5.cpp:136-142 | the output array holds the little-endian words of the input |
| Md5.Encode | libraries/bb_monitor_srv_utils/md5.cpp:146-156 | the output array holds the little-endian bytes of the input |
| Md5.AdvanceCountsBits | libraries/bb_monitor_srv_utils/md5.cpp:256-259 | the carry test keeps the two counter words equal to 8 times the total number of bytes modulo 2^64, for every total and every 32-bit length |
| Md5.IndexFromCounter | libraries/bb_monitor_srv_utils/md5.cpp:253-254 | the low counter word alone gives the total number of bytes modulo 64 |
| Md5.GuardExact | libraries/bb_monitor_srv_utils/md5.cpp:274 | for the lengths admitted, the 32-bit sum of the loop guard does not wrap at any cursor |
| Md5.CursorWraps | libraries/bb_monitor_srv_utils/md5.cpp:274 | for every other 32-bit length, and only for those, the wrapped guard admits a block that ends past the input |
| Md5.CompressAllConcat | libraries/bb_monitor_srv_utils/md5.cpp:266-278 | compression of a concatenation of whole blocks and more is compression of one after the other |
| Md5.Continues | libraries/bb_monitor_srv_utils/md5.cpp:261-283 | compressing the buffered rest with new input is compressing the whole message, with the same rest left |
| Md5.PaddingText | libraries/bb_monitor_srv_utils/md5.cpp:300-317 | the padding and length bytes fed by finalize are those of sections 3.1 and 3.2 of RFC 1321 |
| Md5.DigestOfState | libraries/bb_monitor_srv_utils/md5.cpp:319-320 | the registers after the padded message are the digest of section 3.5 of RFC 1321 |
| Md5.MD5.constructor | libraries/bb_monitor_srv_utils/md5.cpp:120-132 | a new object has absorbed the empty message |
| Md5.MD5.Transform | libraries/bb_monitor_srv_utils/md5.cpp:161-245 | the state becomes the compression of the old state with the block |
| Md5.MD5.Fill | libraries/bb_monitor_srv_utils/md5.cpp:282-283 | copies the source into the buffer in range and leaves the rest of the buffer alone |
| Md5.MD5.AddToCount | libraries/bb_monitor_srv_utils/md5.cpp:256-259 | updates the two counter words with the carry of the code |
| Md5.MD5.Absorb | libraries/bb_monitor_srv_utils/md5.cpp:261-283 | all whole blocks of the buffered bytes and the input are compressed in order and exactly the rest is buffered |
| Md5.MD5.Update | libraries/bb_monitor_srv_utils/md5.cpp:251-284 | the object becomes the image of the message with the input appended; after finalize an update leaves the digest alone |
| Md5.MD5.BufferedLength | libraries/bb_monitor_srv_utils/md5.cpp:253-254 | in every valid object the recovered index is the message length modulo 64 |
| Md5.MD5.Pad | libraries/bb_monitor_srv_utils/md5.cpp:307-317 | the two updates of finalize turn the absorbed message into the padded message |
| Md5.MD5.Finalize | libraries/bb_monitor_srv_utils/md5.cpp:298-330 | the digest is that of the message; a second call changes nothing |
| Md5.MD5.HexDigest | libraries/bb_monitor_srv_utils/md5.cpp:335-346 | the hexadecimal text of the digest, empty before finalize |
| Md5Spec.HexRoundTrip | libraries/bb_monitor_srv_utils/md5.cpp:340-345 | reading the digits back in pairs, high digit first, gives the bytes |
| Md5.DigestOfChunks | libraries/bb_monitor_srv_utils/md5.cpp:251-346 | for every way of cutting the message into chunks the object computes the one-shot digest of the whole |
| Md5.Md5Text | libraries/bb_monitor_srv_utils/md5.cpp:357-362 | the one-call form is the one-shot digest |
| Md5Vectors.FChooses | libraries/bb_monitor_srv_utils/md5.cpp:61-63 | wherever a mask of bits is set in x, F has the bits of y, and wherever it is clear those of z |
| Md5Vectors.GChooses | libraries/bb_monitor_srv_utils/md5.cpp:65-67 | G chooses between x and y by the bits of z |
| Md5Vectors.HFlips | libraries/bb_monitor_srv_utils/md5.cpp:69-71 | H has the bits of z where x and y agree and their complement where they differ |
| Md5Vectors.IFlips | libraries/bb_monitor_srv_utils/md5.cpp:73-75 | I has the bits of y where x is clear and z is set and their complement everywhere else |
| Md5Vectors.LengthModulo | libraries/bb_monitor_srv_utils/md5.cpp:256-259 | the two length words are the bit length modulo 2^64 |
| Md5Vectors.HexOfDigits | libraries/bb_monitor_srv_utils/md5.cpp:340-345 | printing the bytes that hexadecimal digits stand for gives the digits back |
| Md5Vectors.DigestOfEmpty | libraries/bb_monitor_srv_utils/md5.cpp:357-362 | the empty text has the digest d41d8cd98f00b204e9800998ecf8427e |
| Md5Vectors.DigestOfAbc | libraries/bb_monitor_srv_utils/md5.cpp:357-362 | "abc" has the digest 900150983cd24fb0d6963f7d28e17f72 |
| Md5Vectors.DigestOfLong | libraries/bb_monitor_srv_utils/md5.cpp:357-362 | the text of 62 letters and digits, two blocks long, has the digest d174ab98d277d9f5a5611c2c9f419d9f |
| Md5Vectors.Md5OfAbc | libraries/bb_monitor_srv_utils/md5.cpp:357-362 | the one-call form prints 900150983cd24fb0d6963f7d28e17f72 for "abc" |
| Md5Vectors.Md5OfChunks | libraries/bb_monitor_srv_utils/md5.cpp:251-346 | the object fed with the text of 62 letters and digits in two chunks prints d174ab98d277d9f5a5611c2c9f419d9f |
| Delivery.PhaseStep | libraries/bb_monitor_client_utils/bb_metric_sink.cpp:90-122 | every step keeps: the bundle is the values in in_rpc, and only nulls and acknowledged messages are past it |
| Delivery.ParityAfterPush | libraries/bb_monitor_client_utils/bb_metric_sink.cpp:58-125 | a message new in the queue joins at the end of the line with no shared failure |
| Delivery.ParityAfterPurge | libraries/bb_monitor_client_utils/bb_metric_sink.cpp:78-84 | dropping a message keeps the parity law for the others |
| Delivery.ParityAfterFailure | libraries/bb_monitor_client_utils/bb_metric_sink.cpp:108-110 | turning round a failed batch keeps the parity law |
| Delivery.LineUnmoved | libraries/bb_monitor_client_utils/bb_metric_sink.cpp:92-122 | every other move between queues leaves the line of messages as it is |
| Delivery.AccountedStep | libraries/bb_monitor_client_utils/bb_metric_sink.cpp:58-125 | every step keeps conservation and the parity law |
| Delivery.AcknowledgedStep | libraries/bb_monitor_client_utils/bb_metric_sink.cpp:101-122 | every step keeps: acknowledged messages are out of the queue, and no two successful calls share one |
| Delivery.PurgeStep | libraries/bb_monitor_client_utils/bb_metric_sink.cpp:73-87 | every step keeps: nothing is dropped before a call failed, and nothing at all with a negative limit |
| Delivery.RunInv | libraries/bb_monitor_client_utils/bb_metric_sink.cpp:58-125 | the four invariants hold after every run of interleaved steps |
| Delivery.SendsExactly | libraries/bb_monitor_client_utils/bb_metric_sink.cpp:73-89 | after every run, with something queued, a pass starts to fill an empty bundle if and only if no failed call is being waited out or its time has come |
| Delivery.FillsExactly | libraries/bb_monitor_client_utils/bb_metric_sink.cpp:92-101 | filling takes the oldest message until the queue is empty or 5000 values are in the bundle, and then calls if and only if there is a value |
| Delivery.PurgesExactly | libraries/bb_monitor_client_utils/bb_metric_sink.cpp:75-87 | while a failed call is waited out the queue is looked at every ten seconds, and exactly what is above the limit is about to be dropped |
| Delivery.NoCallBeforeRetry | libraries/bb_monitor_client_utils/bb_metric_sink.cpp:73-113 | after a call that failed at clock t no call is made at a clock before t + 60000, whatever the other threads do |
| Delivery.OrderAfterFailures | libraries/bb_monitor_client_utils/bb_metric_sink.cpp:58-125 | at every point of every run but while a failed batch goes back, two remaining messages are in push order if and only if the number of failed calls that carried both is even |
| Delivery.FailedBatchReversed | libraries/bb_monitor_client_utils/bb_metric_sink.cpp:108-113 | after any run, a failed call with no other thread in between leaves the batch in reverse at the front of the queue |
| Delivery.TwoMessagesReversed | libraries/bb_monitor_client_utils/bb_metric_sink.cpp:109-110 | a run in which two messages have changed places after one failure |
| Delivery.Conservation | libraries/bb_monitor_client_utils/bb_metric_sink.cpp:41-125 | at every point of every run each pushed message is in exactly one of queue, in_rpc, pending, deleted and purged |
| Delivery.OnlyNullsLeftOver | libraries/bb_monitor_client_utils/bb_metric_sink.cpp:92-122 | at every loop head in_rpc holds nulls only |
| Delivery.DeletedWasDelivered | libraries/bb_monitor_client_utils/bb_metric_sink.cpp:101-122 | a message with a value is pending or deleted only if exactly one successful call carried it |
| Delivery.LossNeedsFailure | libraries/bb_monitor_client_utils/bb_metric_sink.cpp:73-87 | messages are lost only after a failed call and only with a limit of zero or more |
| Delivery.EofSettledExactly | libraries/bb_monitor_client_utils/bb_metric_sink.cpp:37-39 | when eof() holds, everything pushed is acknowledged or purged if and only if no message with a value is in an unanswered batch |
| Delivery.EofBeforeReply | libraries/bb_monitor_client_utils/bb_metric_sink.cpp:37-39 | a run in which eof() holds although the only message has not been acknowledged |
| MetricSink.Sink.constructor | libraries/bb_monitor_client_utils/bb_metric_sink.cpp:15-24 | a new sink is in the initial state |
| MetricSink.Sink.Process | libraries/bb_monitor_client_utils/bb_metric_sink.cpp:41-49 | drops exactly the pending messages, in order, and returns their number |
| MetricSink.Sink.Eof | libraries/bb_monitor_client_utils/bb_metric_sink.cpp:37-39 | true exactly if queue and pending are empty |
| MetricSink.Sink.Iteration | libraries/bb_monitor_client_utils/bb_metric_sink.cpp:67-123 | one pass with the other threads interleaved at every queue operation makes one call if and only if something is queued, the clock is not before the retry time and a value was taken; a successful call hands over the whole batch in order, a failed one puts it back in reverse and sets the retry time a minute ahead |
| MetricSink.Sink.WaitForRetry | libraries/bb_monitor_client_utils/bb_metric_sink.cpp:73-87 | when it is time to look, exactly the oldest messages above the limit are dropped, and the next look is ten seconds ahead; nothing else is touched |
| MetricSink.Sink.DropOldest | libraries/bb_monitor_client_utils/bb_metric_sink.cpp:78-84 | drops exactly the oldest messages above the limit and keeps the others in order |
| MetricSink.Sink.Fill | libraries/bb_monitor_client_utils/bb_metric_sink.cpp:90-99 | moves a prefix of the queue to in_rpc in order, until the queue is empty or the bundle has 5000 values; terminates while producers push |
| MetricSink.Sink.Send | libraries/bb_monitor_client_utils/bb_metric_sink.cpp:101-122 | either the call succeeds and all of in_rpc is handled in order, or it fails, all of in_rpc is at the front of the queue in reverse and the retry time is a minute ahead |
| MetricSink.Sink.GiveBack | libraries/bb_monitor_client_utils/bb_metric_sink.cpp:109-110 | the failed batch is at the front of the queue in reverse |
| MetricSink.Sink.Settle | libraries/bb_monitor_client_utils/bb_metric_sink.cpp:119-121 | in_rpc is appended to the handled messages in order |
| MetricSink.Sink.Thread | libraries/bb_monitor_client_utils/bb_metric_sink.cpp:58-125 | any number of passes is a run, and leaves nulls only in in_rpc |
| Authorizer.Md5 | libraries/bb_monitor_srv_utils/md5.cpp:335-362 | the hash of a text has 32 hexadecimal digits |
| Authorizer.Md5OfAbc | libraries/bb_monitor_srv_utils/md5.cpp:357-362 | the hash of "abc" is 900150983cd24fb0d6963f7d28e17f72 |
| Authorizer.KeyParts | libraries/bb_monitor_srv_utils/grpc_topic_authorizer.cpp:152 | a joined key determines topic, api key and secret hash when topic and hash have no number sign; the api key may |
| Authorizer.TableFollowsHistory | libraries/bb_monitor_srv_utils/grpc_topic_authorizer.cpp:143-189 | after every history the record table holds exactly the live records, with their latest contents |
| Authorizer.IndexFollowsHistory | libraries/bb_monitor_srv_utils/grpc_topic_authorizer.cpp:152-190 | every index entry, stale or not, comes from a record of the id it points to |
| Authorizer.EraseRemovesNothing | libraries/bb_monitor_srv_utils/grpc_topic_authorizer.cpp:160-161 | the key erased on a delete is never in the index |
| Authorizer.IndexIsLastFiled | libraries/bb_monitor_srv_utils/grpc_topic_authorizer.cpp:152-190 | after every history without collision the index holds, for the key of a request, the id of the last record ever filed under it, and nothing if there is none |
| Authorizer.AnswersExactly | libraries/bb_monitor_srv_utils/grpc_topic_authorizer.cpp:36-114 | for every history without collision an id answers if and only if it was the last filed under the key and its live record passes the double check |
| Authorizer.MissingRecordExactly | libraries/bb_monitor_srv_utils/grpc_topic_authorizer.cpp:49-53 | the branch for a missing record is taken if and only if the last id filed under the key is not live |
| Authorizer.OvertakenExactly | libraries/bb_monitor_srv_utils/grpc_topic_authorizer.cpp:189-190 | an id whose last record was filed under the key is no longer the last filed if and only if another id was filed under the same key after it |
| Authorizer.AgreesWithScanExactly | libraries/bb_monitor_srv_utils/grpc_topic_authorizer.cpp:36-190 | the lookup and the scan of the live records agree about an id if and only if the id does not answer for an outdated api key or past an empty hash, and no later record of another id under the same key has overtaken a permitted one |
| Authorizer.AuthorizeIsScan | libraries/bb_monitor_srv_utils/grpc_topic_authorizer.cpp:36-190 | on well-formed histories authorize returns topic and tenant of the live record that carries the credentials and has the flag of the access asked for, and nothing if there is none |
| Authorizer.ReadAndWriteExactly | libraries/bb_monitor_srv_utils/grpc_topic_authorizer.cpp:36-190 | on well-formed histories the live record of the credentials answers a read if and only if it has read access and a write if and only if it has write access, with its topic and tenant; without such a record nobody is let in |
| Authorizer.ReadOnlyKey | libraries/bb_monitor_srv_utils/grpc_topic_authorizer.cpp:67-114 | a record with read access only answers reads and refuses writes |
| Authorizer.WriteOnlyKey | libraries/bb_monitor_srv_utils/grpc_topic_authorizer.cpp:67-114 | a record with write access only answers writes and refuses reads |
| Authorizer.IncompleteIsIgnored | libraries/bb_monitor_srv_utils/grpc_topic_authorizer.cpp:143-144 | a record that lacks one of the six optional fields changes nothing |
| Authorizer.RemovedIdIsSilent | libraries/bb_monitor_srv_utils/grpc_topic_authorizer.cpp:146-167 | after a record that says disabled, or deleted, no request is answered from that id until a record that says neither comes in for it, although the index does not change |
| Authorizer.OldApiKeyStillOpens | libraries/bb_monitor_srv_utils/grpc_topic_authorizer.cpp:55-60 | a history in which a replaced api key is still accepted |
| Authorizer.EmptyHashAcceptsOldSecret | libraries/bb_monitor_srv_utils/grpc_topic_authorizer.cpp:55-60 | a history in which a replaced secret is still accepted because the new hash is empty |
| Authorizer.OvertakenIsRefused | libraries/bb_monitor_srv_utils/grpc_topic_authorizer.cpp:49-53 | a history in which a live and permitted id is refused because another id, deleted since, took over its index entry |
| Authorizer.DeleteCanGoUnnoticed | libraries/bb_monitor_srv_utils/grpc_topic_authorizer.cpp:156-167 | a history in which a delete does not lead to the branch for a missing record |
| Authorizer.TopicAuthorizer.Visit | libraries/bb_monitor_srv_utils/grpc_topic_authorizer.cpp:128-191 | the visitor moves the two maps to the tables of the longer history |
| Authorizer.TopicAuthorizer.AuthorizeAccess | libraries/bb_monitor_srv_utils/grpc_topic_authorizer.cpp:36-114 | authorize_read and authorize_write return the answer defined on the history |
| SinkFactory.KafkaSinkFactory.GetMetricsSink | programs/saas-services/bb-monitor-ingestion-srv/kafka_sink_facory.cpp:16-51 | one sink for each physical topic for ever; none, and no change, when tenant 0 is returned |
| SinkFactory.RemovedIdOpensNoSink | programs/saas-services/bb-monitor-ingestion-srv/kafka_sink_facory.cpp:24-29 | credentials that a removed id was the last to file open no sink until it is upserted again |
| RpcLifecycle.LogAppend | programs/saas-services/bb-monitor-ingestion-srv/put_metrics_call_data.h:106-146 | pushes and counts of successive bundles add up |
| RpcLifecycle.TagsAfter | programs/saas-services/bb-monitor-ingestion-srv/put_metrics_call_data.h:35-45 | a new object gets a fresh address and one tag, and one tag for each live object is kept by every event |
| RpcLifecycle.WaitingAfter | programs/saas-services/bb-monitor-ingestion-srv/put_metrics_call_data.h:75-79 | one waiting object for each method is kept by every event |
| RpcLifecycle.FinishedAfter | programs/saas-services/bb-monitor-ingestion-srv/put_metrics_call_data.h:152-167 | finish once, then delete once, is kept by every event |
| RpcLifecycle.OnSinkAfter | programs/saas-services/bb-monitor-ingestion-srv/put_metrics_call_data.h:47-53 | the number of live streams on a sink rises by one when a stream opens it and falls by one when such a stream is deleted |
| RpcLifecycle.RepliesAfter | programs/saas-services/bb-monitor-ingestion-srv/put_metrics_call_data.h:152-157 | replies stay equal to the counts of what was received |
| RpcLifecycle.OpeningsStep | programs/saas-services/bb-monitor-ingestion-srv/put_metrics2_call_data.h:72-81 | every event keeps: a call is past START exactly if it has asked for its sink, its metrics go to the sink it opened, and it is refused exactly if it opened none |
| RpcLifecycle.InvStep | programs/saas-services/bb-monitor-ingestion-srv/main.cpp:101-130 | every event keeps all the invariants |
| RpcLifecycle.RunInv | programs/saas-services/bb-monitor-ingestion-srv/main.cpp:87-131 | all the invariants hold at the head of the loop after every sequence of events |
| RpcLifecycle.EventMovesCall | programs/saas-services/bb-monitor-ingestion-srv/put_metrics_call_data.h:73-170 | what one completion does to its call after any run: successor, sink, status, count, reply and deletion; a completion that is not outstanding does nothing |
| RpcLifecycle.BundleIsReceived | programs/saas-services/bb-monitor-ingestion-srv/put_metrics_call_data.h:106-146 | a completion that carries metrics adds every one of them, in order, to what was received for the sink its call opened; no other completion adds anything |
| RpcLifecycle.ReceivedIsSent | programs/saas-services/bb-monitor-ingestion-srv/put_metrics_call_data.h:100-146 | after every run what a call received is the bundles of its completions one after the other |
| RpcLifecycle.PushOfEach | programs/saas-services/bb-monitor-ingestion-srv/put_metrics_call_data.h:107-146 | an unset metric is not pushed; a long, a double and a position are pushed to the sink under namespace and name joined |
| RpcLifecycle.OneOutstandingTag | programs/saas-services/bb-monitor-ingestion-srv/main.cpp:101-130 | at every loop head each live object has exactly one outstanding operation, and nothing else has one |
| RpcLifecycle.OneWaitingObject | programs/saas-services/bb-monitor-ingestion-srv/put_metrics2_call_data.h:62-66 | at every loop head each registered method has exactly one object in START |
| RpcLifecycle.FinishedThenDeletedOnce | programs/saas-services/bb-monitor-ingestion-srv/put_metrics2_call_data.h:127-149 | every object ever created is live, or was finished once and deleted once |
| RpcLifecycle.StagesOfCalls | programs/saas-services/bb-monitor-ingestion-srv/put_metrics_call_data.h:160-163 | unary calls are in START or FINISH only, and no call is in READING_FAILED or WRITING at a loop head, so the assertion before the delete holds |
| RpcLifecycle.GaugeIsLiveStreams | programs/saas-services/bb-monitor-ingestion-srv/put_metrics_call_data.h:47-97 | at every loop head the session gauge of a sink is the number of live streams authenticated for it |
| RpcLifecycle.RepliesAndPushes | programs/saas-services/bb-monitor-ingestion-srv/put_metrics_call_data.h:85-157 | a call is refused if and only if its credentials opened no sink; otherwise the reply counts all metrics sent to it; what it received is what was sent, each went to the sink the call opened, and the sinks got exactly those with a measurement, in order |
| RpcLifecycle.Server.constructor | programs/saas-services/bb-monitor-ingestion-srv/main.cpp:87-97 | one object for each registered method |
| RpcLifecycle.Server.PushMetrics | programs/saas-services/bb-monitor-ingestion-srv/put_metrics_call_data.h:106-146 | the loop receives every metric of the bundle in order, counts all of them and pushes the measured ones |
| RpcLifecycle.Server.ProcessUnaryCall | programs/saas-services/bb-monitor-ingestion-srv/put_metrics2_call_data.h:60-152 | process_state of a unary call is the step of the state machine |
| RpcLifecycle.Server.ProcessStreamingCall | programs/saas-services/bb-monitor-ingestion-srv/put_metrics_call_data.h:73-170 | process_state of a stream is the step of the state machine |
| RpcLifecycle.Server.Next | programs/saas-services/bb-monitor-ingestion-srv/main.cpp:101-130 | one pass of the loop is one step of the state machine |
| RpcLifecycle.Server.HandleRpcs | programs/saas-services/bb-monitor-ingestion-srv/main.cpp:87-131 | the loop over any completions ends in the state the run defines |
| KafkaSink.AllocateThenFree | programs/saas-services/bb-monitor-ingestion-srv/bb_kafka_producer.cpp:186-198 | a refused message leaves the buffers in flight untouched and its own freed once |
| KafkaSink.BuffersTaken | programs/saas-services/bb-monitor-ingestion-srv/bb_kafka_producer.cpp:186-202 | an accepted message becomes the only owner of its new buffers |
| KafkaSink.BuffersReturned | programs/saas-services/bb-monitor-ingestion-srv/bb_kafka_producer.cpp:46-57 | a delivery report frees the buffers of that message and of no other |
| KafkaSink.KeysStep | programs/saas-services/bb-monitor-ingestion-srv/bb_kafka_producer.cpp:37-41 | an accepted record is appended to the one partition of its key |
| KafkaSink.InvStep | programs/saas-services/bb-monitor-ingestion-srv/bb_kafka_sink.h:132-188 | every push, attempt and report keeps all the invariants |
| KafkaSink.FreedExactlyOnce | programs/saas-services/bb-monitor-ingestion-srv/bb_kafka_producer.cpp:10-57 | over every interleaving the live buffers are exactly those of the messages in flight, each with one owner, and every other buffer was freed exactly once |
| KafkaSink.AcceptedInPushOrder | programs/saas-services/bb-monitor-ingestion-srv/bb_kafka_sink.h:168-188 | accepted records followed by the queue are the pushed records, whatever failed and was retried; the two counters match |
| KafkaSink.KeyReachesOnePartition | programs/saas-services/bb-monitor-ingestion-srv/bb_kafka_producer.cpp:37-41 | with a fixed partition count all records of a key reach one partition in range, in push order |
| KafkaSink.BuffersKeepRecords | programs/saas-services/bb-monitor-ingestion-srv/bb_kafka_sink.h:147-164 | until it is freed a buffer holds the encoding of its own record |
| KafkaSink.PartitionExactly | programs/saas-services/bb-monitor-ingestion-srv/bb_kafka_producer.cpp:37-41 | a number is the partition of a hash if and only if it is below the count and the hash is a multiple of the count and that number |
| KafkaSink.FailedReportIsFatal | programs/saas-services/bb-monitor-ingestion-srv/bb_kafka_producer.cpp:46-57 | after a failed delivery report nothing changes any more, whatever comes later |
| KafkaSink.BytesOfRecord | programs/saas-services/bb-monitor-ingestion-srv/bb_kafka_producer.cpp:200-201 | the bytes counted for a record are those of its encoded key and, if it has one, its encoded value |
| KafkaSink.Sink.PushBack | programs/saas-services/bb-monitor-ingestion-srv/bb_kafka_sink.h:76-78 | a push is a step of the run |
| KafkaSink.Sink.HandleEvent | programs/saas-services/bb-monitor-ingestion-srv/bb_kafka_sink.h:132-165 | encodes into new buffers and hands them over, or frees them at once when refused |
| KafkaSink.Sink.FreeUserData | programs/saas-services/bb-monitor-ingestion-srv/bb_kafka_producer.cpp:20-28 | frees exactly the buffers of the message |
| KafkaSink.Sink.Process | programs/saas-services/bb-monitor-ingestion-srv/bb_kafka_sink.h:168-188 | hands over a prefix of the queue in order; stops early only at a refusal |
| KafkaSink.Sink.Delivered | programs/saas-services/bb-monitor-ingestion-srv/bb_kafka_producer.cpp:46-57 | a report of success is a step of the run |
| Ingestion.PushAllInv | programs/saas-services/bb-monitor-ingestion-srv/bb_kafka_sink.h:76-78 | pushing the records of an event keeps the invariants of a sink and appends them |
| Ingestion.MeasuredArePushed | programs/saas-services/bb-monitor-ingestion-srv/put_metrics_call_data.h:106-146 | of the records pushed to a sink, those under a key are the measured metrics received for it under that key, in order |
| Ingestion.MeasuredIsSent | programs/saas-services/bb-monitor-ingestion-srv/put_metrics_call_data.h:100-146 | over every interleaving the measured metrics received for a sink under a key are those of the completions, one after the other, of the calls that opened it |
| Ingestion.InvStep | programs/saas-services/bb-monitor-ingestion-srv/main.cpp:87-131 | every record, completion, attempt and report keeps the invariants of the whole path |
| Ingestion.MetricsReachTheirPartition | programs/saas-services/bb-monitor-ingestion-srv/bb_kafka_producer.cpp:37-41 | over every interleaving the measured metrics that the clients sent to a sink under a key are in the one partition of the key and behind it in the queue, in the order sent |
| Ingestion.EntriesGoWhereGranted | programs/saas-services/bb-monitor-ingestion-srv/put_metrics2_call_data.h:72-125 | over every interleaving whatever a call received went to the sink of the topic its credentials were authorized for |
| Ingestion.GrantedByAuthorizer | programs/saas-services/bb-monitor-ingestion-srv/kafka_sink_facory.cpp:16-51 | a call that begins gets the topic the authorizer answers at that moment, and no sink exactly if that answer has tenant 0 |
| Ingestion.EventReachesItsPart | programs/saas-services/bb-monitor-ingestion-srv/main.cpp:87-131 | an authorization record, a completion and an event of one sink change their own part of the system; after a failed delivery report nothing changes |
| Text.LinesOfTerminated | programs/client-proxies/bb-monitor-dd-log-proxy/main.cpp:101-116 | splitting finds the lines a text was put together from |
| LineFraming.TakeLine | programs/client-proxies/bb-monitor-dd-log-proxy/main.cpp:107-116 | handing over the text up to a line feed keeps the account of the bytes received |
| LineFraming.Session.FindLF | programs/client-proxies/bb-monitor-dd-log-proxy/main.cpp:103 | the first line feed in the buffer, or none |
| LineFraming.Session.MoveDown | programs/client-proxies/bb-monitor-dd-log-proxy/main.cpp:111-113 | the rest of the buffer moves to its start |
| LineFraming.Session.EndLine | programs/client-proxies/bb-monitor-dd-log-proxy/main.cpp:107-116 | the open line is handed over, what follows its line feed stays in the buffer, and all bytes stay accounted for |
| LineFraming.Session.HandleRead | programs/client-proxies/bb-monitor-dd-log-proxy/main.cpp:94-130 | handles the line up to the first line feed, or stores everything; handled lines, open line and buffer stay all the bytes received, and there is room for another read |
| LineFraming.HandledArePrefix | programs/client-proxies/bb-monitor-dd-log-proxy/main.cpp:94-130 | after any reads the handled lines are a prefix of the lines received, and the others are complete in the rest |
| LineFraming.CaughtUpExactly | programs/client-proxies/bb-monitor-dd-log-proxy/main.cpp:107-116 | every complete line has been handled if and only if no line feed is left in the buffer |
| LineFraming.SecondLineWaits | programs/client-proxies/bb-monitor-dd-log-proxy/main.cpp:107-116 | a session with a complete line waiting in the buffer |
| LineFraming.ReadStream | programs/client-proxies/bb-monitor-dd-log-proxy/main.cpp:94-130 | for every chunking of a stream the handled lines are a prefix of its lines |
| PrometheusLabels.LabelReadExactly | libraries/bb_monitor_client_utils/prometheus_utils.cpp:10-44 | a printed label is read back from its slice if and only if the key is non-empty without equals sign, the value has no quote and does not start with a space, and for an empty value no quote follows in the slice |
| PrometheusLabels.LongSlice | libraries/bb_monitor_client_utils/prometheus_utils.cpp:58-60 | what the slice with a position for a length contains: the entry, and as many characters behind it as stand before it |
| PrometheusLabels.ReadExactlyFrom | libraries/bb_monitor_client_utils/prometheus_utils.cpp:52-68 | from every cursor the loop reads back the printed labels in order if and only if each can be read where it is printed |
| PrometheusLabels.LabelsReadExactly | libraries/bb_monitor_client_utils/prometheus_utils.cpp:52-68 | a printed list without commas in keys and values is read back in order if and only if each label can be read where it is printed |
| PrometheusLabels.LabelBound | libraries/bb_monitor_client_utils/prometheus_utils.cpp:10-44 | a label misread is smaller than the one printed or has picked up a comma |
| PrometheusLabels.PermutationIsSame | libraries/bb_monitor_client_utils/prometheus_utils.cpp:52-68 | misread labels never make up for each other: a list read back as a permutation is read back in order |
| PrometheusLabels.InsertSorted | libraries/bb_monitor_client_utils/prometheus_utils.cpp:84 | insertion by key keeps a list sorted |
| PrometheusLabels.SortSorted | libraries/bb_monitor_client_utils/prometheus_utils.cpp:46-48 | the sorted list is ordered by lexicographic key |
| PrometheusLabels.LessExactly | libraries/bb_monitor_client_utils/prometheus_utils.cpp:46-48 | a key comes before another if and only if it is a proper prefix or has the smaller character at the first difference |
| PrometheusLabels.DocumentedLabels | libraries/bb_monitor_client_utils/prometheus_utils.cpp:91 | the labels of a documented line with the job, in the order they are left in |
| PrometheusLabels.EmptyList | libraries/bb_monitor_client_utils/prometheus_utils.cpp:69-86 | an empty list gets the job and, in front of it, the instance if there is one |
| PrometheusLabels.LabelsRoundTripExactly | libraries/bb_monitor_client_utils/prometheus_utils.cpp:50-86 | what is read back is sorted by key, and is a permutation of the labels, job and, if non-empty, instance if and only if each label can be read where it is printed |
| PrometheusLabels.LabelsRoundTrip | libraries/bb_monitor_client_utils/prometheus_utils.cpp:50-86 | a printed list of labels with values is read back as a key-sorted permutation of its labels, job and, if non-empty, instance |
| PrometheusLabels.EmptyValueInTheMiddle | libraries/bb_monitor_client_utils/prometheus_utils.cpp:60 | a list in which the long slice shows: an empty value picks up what follows |
| PrometheusLabels.LongKeyProtects | libraries/bb_monitor_client_utils/prometheus_utils.cpp:60 | a list in which an empty value in the middle is read back |
| PrometheusLabels.CommaByAccident | libraries/bb_monitor_client_utils/prometheus_utils.cpp:58-67 | a list with a comma in a value that is read back all the same |
| PrometheusLabels.ParseLabels | libraries/bb_monitor_client_utils/prometheus_utils.cpp:50-86 | the loop computes the labels defined by recursion, with job and instance, sorted |
| PrometheusText.ParseIsHomomorphic | libraries/bb_monitor_client_utils/prometheus_utils.cpp:126-238 | with a fixed clock the metrics of two texts one after the other are the metrics of the first and then of the second, if the first is empty or ends in a line feed |
| PrometheusText.UnterminatedLineIgnored | libraries/bb_monitor_client_utils/prometheus_utils.cpp:136-143 | a last line without line feed contributes nothing |
| PrometheusText.ParseStep | libraries/bb_monitor_client_utils/prometheus_utils.cpp:134-159 | from every cursor, one line and then the rest |
| PrometheusText.ParseText | libraries/bb_monitor_client_utils/prometheus_utils.cpp:126-238 | the loop terminates and yields the metrics of the complete lines in order |
| PrometheusText.LineRoundTripExactly | libraries/bb_monitor_client_utils/prometheus_utils.cpp:161-234 | a printed line, with or without labels and timestamp, yields one metric, which has the name, value, time and key-sorted labels printed if and only if each label can be read where it is printed |
| PrometheusText.HasMetricExactly | libraries/bb_monitor_client_utils/prometheus_utils.cpp:150-234 | a line has a metric if and only if it is not empty and no comment and has something other than spaces behind its closed label list or, without a brace, behind its first space |
| PrometheusText.DocumentedLine | libraries/bb_monitor_client_utils/prometheus_utils.cpp:91 | a documented line with labels and a time gives the metric it documents |
| PrometheusText.MinimalLine | libraries/bb_monitor_client_utils/prometheus_utils.cpp:98 | the documented line without labels and time gives the metric it documents |
| PrometheusText.TextRoundTripExactly | libraries/bb_monitor_client_utils/prometheus_utils.cpp:126-238 | a printed text is read back as the metrics it stands for if and only if that holds for every line |
| Hstore.ArrowOfItem | libraries/bb_monitor_utils/grpc_utils.cpp:51-59 | where the first arrow of a printed entry is, for every key |
| Hstore.ReadGood | libraries/bb_monitor_utils/grpc_utils.cpp:148-154 | a printed entry is read back, spaces inside the quotes included |
| Hstore.ReadKeyHasNoArrow | libraries/bb_monitor_utils/grpc_utils.cpp:51-59 | whatever key was printed, the one read back has no arrow |
| Hstore.SplitAppend | libraries/bb_monitor_utils/grpc_utils.cpp:61-65 | splitting at commas takes the last segment off |
| Hstore.ReadIsPlain | libraries/bb_monitor_utils/grpc_utils.cpp:145-160 | nothing read has a comma, a quote or an empty key |
| Hstore.GoodIsRead | libraries/bb_monitor_utils/grpc_utils.cpp:94-160 | a printed list of good entries is read back as their map |
| Hstore.RoundTripExactly | libraries/bb_monitor_utils/grpc_utils.cpp:94-160 | for every map and every iteration order, pg2proto of to_pg without its outer quotes is the map if and only if keys are non-empty without arrow and nothing has a comma or a quote |
| Hstore.PrintedText | libraries/bb_monitor_utils/grpc_utils.cpp:94-105 | no entry, one entry and two entries as text |
| Hstore.TrimExactly | libraries/bb_monitor_utils/grpc_utils.cpp:32-48 | trimming takes the six characters of isspace off both ends and nothing else |
| Hstore.ReadSpaced | libraries/bb_monitor_utils/grpc_utils.cpp:145-160 | a segment with blanks around key and value is read without them and without any quote |
| Hstore.Print | libraries/bb_monitor_utils/grpc_utils.cpp:94-105 | the loop prints the entries as defined |
| Hstore.ReadInto | libraries/bb_monitor_utils/grpc_utils.cpp:145-160 | the loop adds to the given map what the segments say |
| RemoteWrite.LabelsAdded | programs/client-proxies/bb-monitor-promstore-write-proxy/main.cpp:43-58 | unreserved labels are appended in order; the number of labels tells exactly whether one was reserved |
| RemoteWrite.NameFirst | programs/client-proxies/bb-monitor-promstore-write-proxy/main.cpp:44-50 | the name label in front sets the name and nothing else |
| RemoteWrite.OneSeries | libraries/bb_monitor_client_utils/prometheus_sink2.cpp:141-159 | an exported series is read back as one metric at most, and as the right one if and only if the joined name is non-empty and no label is reserved |
| RemoteWrite.ExportOfOne | libraries/bb_monitor_client_utils/prometheus_sink2.cpp:117-159 | a long or a finite double gives one series if and only if it is younger than the limit, with the joined name first, its labels, and one sample; null messages, null and position values, NaN and infinities give none |
| RemoteWrite.ExportConcat | libraries/bb_monitor_client_utils/prometheus_sink2.cpp:113-161 | a batch is exported message by message, in order |
| RemoteWrite.ReadOfOne | programs/client-proxies/bb-monitor-promstore-write-proxy/main.cpp:36-67 | a series of one sample becomes one metric under its name label, with its labels in order; the replica label is dropped, and without a name there is no metric |
| RemoteWrite.LabelsPileUp | programs/client-proxies/bb-monitor-promstore-write-proxy/main.cpp:36-67 | a series of two samples whose second metric has every label twice |
| RemoteWrite.RoundTripExactly | libraries/bb_monitor_client_utils/prometheus_sink2.cpp:108-161 | a batch written and read back yields exactly the finite and young metrics in order if and only if each has a non-empty joined name and no reserved label |
| RemoteWrite.SeriesLabels | libraries/bb_monitor_client_utils/prometheus_sink2.cpp:143-154 | the joined name first, then the labels of the metric in order |
| RemoteWrite.ReadRequest | programs/client-proxies/bb-monitor-promstore-write-proxy/main.cpp:36-67 | the three nested loops insert the metrics defined by recursion, several samples of a series included |
| ExportLoop.HandledInOrder | libraries/bb_monitor_client_utils/prometheus_sink2.cpp:64-71 | at every point of every run, deleted, pending, in_batch and queue one after the other are the pushed messages |
| ExportLoop.BatchesSettled | libraries/bb_monitor_client_utils/prometheus_sink2.cpp:163-208 | over every run the handled messages are the batches done with, and each batch was posted as one request, the same after each timeout, until it was answered or the thread was told to exit; a batch with nothing to export was not posted |
| ExportLoop.HandledWasPosted | libraries/bb_monitor_client_utils/prometheus_sink2.cpp:113-208 | a message that has left in_batch and qualified was in a request that was answered, or the thread was told to exit |
| ExportLoop.RefusedIsDropped | libraries/bb_monitor_client_utils/prometheus_sink2.cpp:189-195 | a run in which a refused request is dropped with its batch |
| ExportLoop.RunInv | libraries/bb_monitor_client_utils/prometheus_sink2.cpp:80-214 | the invariants hold after every run of interleaved steps |
| ExportLoop.Sink.Process | libraries/bb_monitor_client_utils/prometheus_sink2.cpp:64-71 | drops exactly the pending messages, in order, and returns their number |
| ExportLoop.Sink.AddSeries | libraries/bb_monitor_client_utils/prometheus_sink2.cpp:117-160 | adds one series with the joined name, the labels, the time and the number exactly if the message is not null, younger than the limit and a long or a finite double, and nothing otherwise |
| ExportLoop.Sink.Fill | libraries/bb_monitor_client_utils/prometheus_sink2.cpp:113-161 | the front of the queue becomes the batch, up to the batch size; terminates while producers push |
| ExportLoop.Sink.PostAll | libraries/bb_monitor_client_utils/prometheus_sink2.cpp:178-203 | posts until an answer or the exit, and leaves the batch to be handled |
| ExportLoop.Sink.Settle | libraries/bb_monitor_client_utils/prometheus_sink2.cpp:206-208 | the batch is appended to the handled messages in order |
| ExportLoop.Sink.Iteration | libraries/bb_monitor_client_utils/prometheus_sink2.cpp:83-211 | one pass with the other threads interleaved settles exactly one batch from the front of the queue, built under the age limit counted from the clock reading of the pass, and does nothing if the queue is empty or the thread has to exit |
| ExportLoop.Sink.Thread | libraries/bb_monitor_client_utils/prometheus_sink2.cpp:80-214 | after any number of passes the handled messages and the queue are what was pushed, in order |
| TenantId.XorTwice | sql/sample/monitor.schema:60 | exclusive or with the same number twice gives the number back, within the same number of bits |
| TenantId.NeverHalfWay | sql/sample/monitor.schema:60 | the quotient that is cast to int is never half way between two integers |
| TenantId.PrecisionDoesNotMatter | sql/sample/monitor.schema:60 | rounding any quotient within 1/1428050 of the exact one gives the round function |
| TenantId.SchemaRoundIsSmall | sql/sample/monitor.schema:60 | the results of the round function of the schema have 15 bits, and its product does not overflow |
| TenantId.TopBit | sql/sample/monitor.schema:60 | exclusive or with a number of n bits leaves the bit above alone |
| TenantId.EncryptKeepsSign | sql/sample/monitor.schema:48-67 | with a round function of 15 bits the scrambled id is negative if and only if the id is |
| TenantId.JoinSplits | sql/sample/monitor.schema:57-65 | taking the halves of a joined number gives the halves back, sign wrap included |
| TenantId.SplitJoins | sql/sample/monitor.schema:57-65 | joining the halves of a 32-bit integer gives it back |
| TenantId.ThreeRoundsBack | sql/sample/monitor.schema:58-64 | three rounds on the swapped result of three rounds lead back |
| TenantId.EncryptIsInvolution | sql/sample/monitor.schema:48-67 | the scrambler is its own inverse on all 32-bit integers, for every round function with 16-bit range |
| TenantId.EncryptIsInjective | sql/sample/monitor.schema:48-67 | different ids are scrambled differently |
| TenantId.PseudoEncrypt | sql/sample/monitor.schema:48-67 | the loop computes the three rounds |
| TenantId.DigitsRoundTrip | sql/sample/monitor.schema:100-104 | the digits determine the number |
| TenantId.StringifyIsInjective | sql/sample/monitor.schema:92-106 | two texts agree if and only if the numbers agree up to sign |
| TenantId.StringifyExactly | sql/sample/monitor.schema:92-106 | the text of a number has digits of the alphabet only, lowest first without leading zeros, and the number without its sign as value; only the smallest integer has none |
| TenantId.DigitsOfAlphabet | sql/sample/monitor.schema:95 | the digits are the small letters, the capital letters and the decimal digits, in this order |
| TenantId.StringifyInt | sql/sample/monitor.schema:92-106 | the loop prints the digits lowest first, and fails on the smallest integer |
| TenantId.AssignTextId | sql/sample/monitor.schema:145-151 | the trigger stores the text of the scrambled id |
| TenantId.TextIdsCollideExactly | sql/sample/monitor.schema:145-151 | two tenants share a text id if and only if their scrambled ids are equal or opposite |
| TenantId.UniqueForOneSign | sql/sample/monitor.schema:145-151 | with a round function of 15 bits, two ids of the same sign share a text id if and only if they are equal |
| TenantId.SchemaUniqueForOneSign | sql/sample/monitor.schema:48-151 | under the round function of the schema, two ids of the same sign share a text id if and only if they are equal |
| TenantId.EveryTextIdIsShared | sql/sample/monitor.schema:92-151 | for every round function, but for the ids that scramble to zero and to the smallest integer, every text id is shared by exactly two tenant ids; with 15 bits one of them is negative and the other is not |
| TenantId.TextIdUniqueExactly | sql/sample/monitor.schema:92-151 | for every round function a text id belongs to one tenant alone if and only if the scrambled id is zero or the smallest integer |
| TenantId.SchemaScrambles | sql/sample/monitor.schema:48-67 | the scrambled values of 0, 1, the smallest integer and one more |
| TenantId.SchemaTextId | sql/sample/monitor.schema:92-151 | the text id of tenant 1 is 5409L |
| TenantId.SchemaIdsCollide | sql/sample/monitor.schema:92-151 | two ids of different sign that share a text id |
| TenantId.SchemaUniqueExactly | sql/sample/monitor.schema:48-151 | under the round function of the schema, a text id belongs to one 32-bit id alone if and only if that id is 1777613459 or -1245441359 |

## Left out

- gRPC, librdkafka, kspp topologies, Boost.Asio, the HTTP client and server, and the metrics registries are environment: their results are arbitrary, their queues are sequences with atomic operations.
- `bb_log_sink.cpp` and `bb_intake_sink.cpp` run the loop of `bb_metric_sink.cpp` without purging and with batches of 1000; a negative limit in `Delivery` is the loop that never purges, and only `Delivery.FillsExactly` and `MetricSink.Sink.Iteration` depend on the batch size.
- `put_logs*` and `put_intake*` call data have the lifecycle of the metrics calls; the counts of the intake calls are bundles and are not modelled.
- Delivery: one loop-head step reads the clock and the queue size together, since only the sending thread removes from the queue; thread exit, `close()`, the destructor and the waiting loop of `flush()` are not modelled.
- MD5: the table of 64 constants is written out, not derived from the sine; a text longer than 2^32 bytes, whose length the call truncates, is outside `Md5.Md5Text`; input is a sequence, so an input that overlaps the object's own buffer is not modelled.
- Md5.MD5.Update: does not cover the lengths for which the 32-bit cursor wraps, because the code then reads past its input; `Md5.CursorWraps` says which lengths these are.
- Authorizer: records with a null value, or without topic name, read access or write access, are dereferenced unchecked by the code and are taken as complete; locking, the metric counters of the visitor and `authorize_api` are not modelled.
- Authorizer.AuthorizeIsScan: needs that md5 does not map another key of the history to the hash of the request's key; md5 itself is the modelled function, not an arbitrary one.
- RpcLifecycle: `main.cpp` registers the unary methods only, the streaming registration is commented out; the model takes any list of methods of either kind. `cq_->Next` is taken to return true, so `set_error` is never called. Total session and timeout counters are not modelled.
- KafkaSink: schema registration, event times, the unused COPY mode of `produce`, and the flush of the destructor beside the background thread are not modelled; the codecs and the hash are arbitrary functions; a failed delivery report ends the process, as LOG(FATAL) does.
- LineFraming: the stream has no NUL byte; appending from the buffer as a C string is taken as copying the given number of bytes. The dead-connection timer and the parsing of a line are not modelled.
- PrometheusText: `atof` and `atoll` are arbitrary functions of the text; one clock reading serves a whole parse; where `std::sort` may leave equal keys in any order the model picks one; a text of 2^31 bytes or more overflows the int cursor and is outside `PrometheusText.ParseText`.
- PrometheusLabels.LabelsRoundTripExactly: for lists without commas in keys and values; a comma takes a label apart, and whether the pieces come back whole depends on all the text around them (`PrometheusLabels.CommaByAccident`).
- ExportLoop: `closed_` and `start_running_`, which only keep the thread from its loop, the counters, and the waiting loop of `flush()` are not modelled; the network is taken to answer after finitely many timeouts in `ExportLoop.Sink.PostAll`, while `ExportLoop.Run` has any number of them.
- Ingestion: the sinks for logs and intake are not part of the path; all sinks have the same number of partitions; one event of the completion queue, its sink lookup and its pushes are one step.
- RemoteWrite: compression and serialisation, and the conversion of a 64-bit integer to a double, are taken as given; a series with several samples collects its labels again for each sample (`RemoteWrite.LabelsPileUp`); the exporter writes none, and no round trip is claimed for them.
- TenantId: the database is taken to divide to within 1/1428050 of the exact quotient, below which precision does not matter (`TenantId.PrecisionDoesNotMatter`); the bigint variants are not modelled.
- `prometheus_sink.cpp` is superseded by `prometheus_sink2.cpp`; JSON parsing, `kv_filter.cpp`, compression, base64, Postgres workers and command-line programs are left out as thin wrappers or easy members.
