/** The topic authorizer of libraries/bb_monitor_srv_utils/grpc_topic_authorizer.cpp: a table of the live
    records by id, and an index from a hash of (topic, api key, secret hash) to an id. The index is never
    cleaned up, so a lookup that goes through it has to check what it finds. */
module Authorizer {
  import opened Wrappers
  import Md5Spec
  import Md5Vectors

  /** A record of the authorization topic. The topic name and the two access flags are read unconditionally. */
  datatype Record = Record(
    id: Option<int>,
    tenantId: Option<int>,
    isDisabled: Option<bool>,
    isDeleted: Option<bool>,
    apiKey: Option<string>,
    secretHash: Option<string>,
    topicName: string,
    kafkaTopic: Option<string>,
    readAccess: bool,
    writeAccess: bool)

  datatype AuthData = AuthData(
    tenantId: int, apiKey: string, secretHash: string, readAccess: bool, writeAccess: bool,
    topicName: string, kafkaTopic: string)

  datatype Tables = Tables(authdata: map<int, AuthData>, index: map<string, int>)

  datatype Access = Read | Write

  datatype Request = Request(access: Access, apiKey: string, secret: string, topic: string)

  // ----- md5 of a text, one byte a character

  function Md5(text: string): (hash: string)
    ensures |hash| == 32 && Md5Spec.IsHex(hash)
  {
    Md5Spec.Hex(Md5Spec.Digest(Md5Spec.Octets(text)))
  }

  /** The hash of a text of section A.5 of RFC 1321. */
  lemma Md5OfAbc()
    ensures Md5("abc") == "900150983cd24fb0d6963f7d28e17f72"
  {
    hide *;
    Md5IsDigest("abc");
    Md5Vectors.DigestOfAbc();
  }

  lemma Md5IsDigest(text: string)
    ensures Md5(text) == Md5Spec.Hex(Md5Spec.Digest(Md5Spec.Octets(text)))
  {}

  function Key(topic: string, apiKey: string, secretHash: string): string
  {
    topic + "#" + apiKey + "#" + secretHash
  }

  // ----- applying records

  predicate Complete(r: Record)
  {
    r.id.Some? && r.tenantId.Some? && r.isDisabled.Some? && r.isDeleted.Some? && r.apiKey.Some? && r.secretHash.Some?
  }

  predicate Removes(r: Record) { Complete(r) && (r.isDisabled.value || r.isDeleted.value) }

  predicate Upserts(r: Record) { Complete(r) && !Removes(r) }

  function DataOf(r: Record): AuthData
    requires Complete(r)
  {
    AuthData(r.tenantId.value, r.apiKey.value, r.secretHash.value, r.readAccess, r.writeAccess, r.topicName,
             if r.kafkaTopic.Some? then r.kafkaTopic.value else "")
  }

  function KeyOf(d: AuthData): string { Key(d.topicName, d.apiKey, d.secretHash) }

  function Apply(t: Tables, r: Record): Tables
  {
    if !Complete(r) then t
    else if Removes(r) then
      if r.id.value in t.authdata then
        var d := t.authdata[r.id.value];
        Tables(t.authdata - {r.id.value}, t.index - {d.topicName + "#" + d.apiKey})
      else t
    else Tables(t.authdata[r.id.value := DataOf(r)], t.index[Md5(KeyOf(DataOf(r))) := r.id.value])
  }

  function Load(history: seq<Record>): Tables
  {
    if history == [] then Tables(map[], map[])
    else Apply(Load(history[..|history| - 1]), history[|history| - 1])
  }

  // ----- the lookup through the index

  predicate Grants(d: AuthData, access: Access) { if access == Read then d.readAccess else d.writeAccess }

  /** The id whose record answers the request, if any does. */
  function Answering(t: Tables, q: Request): Option<int>
  {
    var secretHash := Md5(q.secret);
    var hash := Md5(Key(q.topic, q.apiKey, secretHash));
    if hash !in t.index then None
    else
      var id := t.index[hash];
      if id !in t.authdata then None
      else
        var d := t.authdata[id];
        if |d.secretHash| > 0 && d.secretHash != secretHash then None
        else if q.topic != d.topicName then None
        else if !Grants(d, q.access) then None
        else Some(id)
  }

  function Authorize(t: Tables, q: Request): (string, int)
  {
    match Answering(t, q)
    case None => ("", 0)
    case Some(id) => if id in t.authdata then (t.authdata[id].kafkaTopic, t.authdata[id].tenantId) else ("", 0)
  }

  // ----- the scan of the live records, on the history alone

  /** The last word of the history about an id. */
  function LastWord(history: seq<Record>, id: int): Option<Record>
  {
    if history == [] then None
    else
      var r := history[|history| - 1];
      if Complete(r) && r.id.value == id then Some(r) else LastWord(history[..|history| - 1], id)
  }

  predicate Live(history: seq<Record>, id: int)
  {
    var r := LastWord(history, id);
    r.Some? && Upserts(r.value)
  }

  /** The live record of this id permits the request. */
  predicate Permits(history: seq<Record>, id: int, q: Request)
  {
    Live(history, id) &&
    var r := LastWord(history, id).value;
    && r.topicName == q.topic && r.apiKey.value == q.apiKey && r.secretHash.value == Md5(q.secret)
    && if q.access == Read then r.readAccess else r.writeAccess
  }

  // ----- what a history is assumed to keep to

  predicate NoHash(s: string) { '#' !in s }

  /** Topic names and secret hashes without '#', so that keys can be taken apart. */
  ghost predicate Separable(history: seq<Record>)
  {
    forall r :: r in history && Upserts(r) ==> NoHash(r.topicName) && NoHash(r.secretHash.value)
  }

  /** Separable, with non-empty secret hashes, one api key for each id for ever, and no two ids that ever share
      topic, api key and secret hash. */
  ghost predicate WellFormed(history: seq<Record>)
  {
    && Separable(history)
    && (forall r :: r in history && Upserts(r) ==> r.secretHash.value != "")
    && (forall r, r' :: r in history && r' in history && Upserts(r) && Upserts(r') ==>
         if r.id == r'.id then r.apiKey == r'.apiKey
         else !(r.topicName == r'.topicName && r.apiKey == r'.apiKey && r.secretHash == r'.secretHash))
  }

  function RequestKey(q: Request): string { Key(q.topic, q.apiKey, Md5(q.secret)) }

  /** md5 tells the key of the request from the other keys of the history. */
  ghost predicate NoCollision(history: seq<Record>, q: Request)
  {
    forall r :: r in history && Upserts(r) ==>
      (Md5(KeyOf(DataOf(r))) == Md5(RequestKey(q)) ==> KeyOf(DataOf(r)) == RequestKey(q))
  }

  // ----- keys can be taken apart

  lemma HexHasNoHash(s: string)
    requires Md5Spec.IsHex(s)
    ensures NoHash(s)
  {}

  lemma LastHash(a: string, s: string, a': string, s': string)
    requires a + "#" + s == a' + "#" + s' && NoHash(s) && NoHash(s')
    ensures a == a' && s == s'
  {
    var k := a + "#" + s;
    assert k[|a|] == '#' && k[|a'|] == '#';
    assert forall i :: |a| < i < |k| ==> k[i] == s[i - |a| - 1];
    assert forall i :: |a'| < i < |k| ==> k[i] == s'[i - |a'| - 1];
    assert |a| == |a'|;
    assert a == k[..|a|] && a' == k[..|a|] && s == k[|a| + 1..] && s' == k[|a| + 1..];
  }

  lemma FirstHash(t: string, a: string, t': string, a': string)
    requires t + "#" + a == t' + "#" + a' && NoHash(t) && NoHash(t')
    ensures t == t' && a == a'
  {
    var k := t + "#" + a;
    assert k[|t|] == '#' && k[|t'|] == '#';
    assert forall i :: 0 <= i < |t| ==> k[i] == t[i];
    assert forall i :: 0 <= i < |t'| ==> k[i] == t'[i];
    assert |t| == |t'|;
    assert t == k[..|t|] && t' == k[..|t|] && a == k[|t| + 1..] && a' == k[|t| + 1..];
  }

  lemma KeyParts(t: string, a: string, s: string, t': string, a': string, s': string)
    requires Key(t, a, s) == Key(t', a', s') && NoHash(t) && NoHash(t') && NoHash(s) && NoHash(s')
    ensures t == t' && a == a' && s == s'
  {
    LastHash(t + "#" + a, s, t' + "#" + a', s');
    FirstHash(t, a, t', a');
  }

  // ----- the two tables against the history

  ghost predicate TableIsLive(history: seq<Record>)
  {
    forall id :: (id in Load(history).authdata <==> Live(history, id))
      && (Live(history, id) ==> Load(history).authdata[id] == DataOf(LastWord(history, id).value))
  }

  /** Every index entry, stale or not, comes from a record of the id it points to. */
  ghost predicate IndexFromHistory(history: seq<Record>)
  {
    forall k :: k in Load(history).index ==>
      exists r :: r in history && Upserts(r) && r.id.value == Load(history).index[k] && k == Md5(KeyOf(DataOf(r)))
  }

  lemma {:induction false} TableFollowsHistory(history: seq<Record>)
    ensures TableIsLive(history)
  {
    if history != [] {
      hide Md5, DataOf;
      var before, r := history[..|history| - 1], history[|history| - 1];
      TableFollowsHistory(before);
      forall id ensures (id in Load(history).authdata <==> Live(history, id))
        && (Live(history, id) ==> Load(history).authdata[id] == DataOf(LastWord(history, id).value))
      {
        assert Live(before, id) <==> id in Load(before).authdata;
        assert LastWord(history, id) == if Complete(r) && r.id.value == id then Some(r) else LastWord(before, id);
      }
    }
  }

  lemma {:induction false} LastWordInHistory(history: seq<Record>, id: int)
    ensures var r := LastWord(history, id);
      r.Some? ==> r.value in history && Complete(r.value) && r.value.id.value == id
  {
    if history != [] {
      LastWordInHistory(history[..|history| - 1], id);
    }
  }

  lemma ApplyIndex(t: Tables, r: Record, k: string)
    requires k in Apply(t, r).index
    ensures
      if k in t.index && Apply(t, r).index[k] == t.index[k] then true
      else Upserts(r) && k == Md5(KeyOf(DataOf(r))) && Apply(t, r).index[k] == r.id.value
  {
    hide Md5, KeyOf, DataOf;
  }

  lemma {:induction false} IndexFollowsHistory(history: seq<Record>)
    ensures IndexFromHistory(history)
  {
    if history != [] {
      hide Md5, KeyOf, DataOf, Apply;
      var before, r := history[..|history| - 1], history[|history| - 1];
      IndexFollowsHistory(before);
      forall k | k in Load(history).index
        ensures exists r' ::
          r' in history && Upserts(r') && r'.id.value == Load(history).index[k] && k == Md5(KeyOf(DataOf(r')))
      {
        ApplyIndex(Load(before), r, k);
        if k in Load(before).index && Load(history).index[k] == Load(before).index[k] {
          var r' :| r' in before && Upserts(r') && r'.id.value == Load(before).index[k] && k == Md5(KeyOf(DataOf(r')));
          assert r' in history;
        } else {
          assert r in history && Upserts(r);
        }
      }
    }
  }

  /** The erase of "topic#api_key" on a delete removes nothing: every index key is a 32-digit hash. */
  lemma EraseRemovesNothing(history: seq<Record>, topic: string, apiKey: string)
    ensures topic + "#" + apiKey !in Load(history).index
  {
    hide Md5, KeyOf, DataOf;
    IndexFollowsHistory(history);
    var k := topic + "#" + apiKey;
    assert k[|topic|] == '#';
    if k in Load(history).index {
      assert exists text :: k == Md5(text);
      HexHasNoHash(k);
    }
  }

  /** The record was filed under the key of the request. */
  predicate FiledAs(r: Record, q: Request) { Upserts(r) && KeyOf(DataOf(r)) == RequestKey(q) }

  /** The id of the last record that was filed under the key of the request, removed since or not. */
  function LastFiled(history: seq<Record>, q: Request): Option<int>
  {
    if history == [] then None
    else if FiledAs(history[|history| - 1], q) then history[|history| - 1].id
    else LastFiled(history[..|history| - 1], q)
  }

  lemma HashIsNoErasedKey(text: string, topic: string, apiKey: string)
    ensures Md5(text) != topic + "#" + apiKey
  {
    hide Md5;
    HexHasNoHash(Md5(text));
    assert (topic + "#" + apiKey)[|topic|] == '#';
  }

  lemma InLonger(before: seq<Record>, r: Record, history: seq<Record>)
    requires history != [] && before == history[..|history| - 1] && r == history[|history| - 1]
    ensures forall x :: x in history <==> x in before || x == r
  {
    assert history == before + [r];
  }

  /** The index holds, for the key of the request, the last id ever filed under it. */
  lemma {:induction false} IndexIsLastFiled(history: seq<Record>, q: Request)
    requires NoCollision(history, q)
    ensures
      var index, k, last := Load(history).index, Md5(RequestKey(q)), LastFiled(history, q);
      if last.None? then k !in index else k in index && index[k] == last.value
  {
    if history != [] {
      hide Md5, RequestKey, KeyOf, DataOf;
      var before, r := history[..|history| - 1], history[|history| - 1];
      InLonger(before, r, history);
      IndexIsLastFiled(before, q);
      var t := Load(before);
      if Upserts(r) {
        assert r in history;
      } else if Removes(r) && r.id.value in t.authdata {
        HashIsNoErasedKey(RequestKey(q), t.authdata[r.id.value].topicName, t.authdata[r.id.value].apiKey);
      }
    }
  }

  lemma {:induction false} LastFiledInHistory(history: seq<Record>, q: Request)
    ensures var id := LastFiled(history, q);
      if id.Some? then exists r :: r in history && FiledAs(r, q) && r.id == id
      else forall r :: r in history ==> !FiledAs(r, q)
  {
    if history != [] {
      hide FiledAs;
      var before, r := history[..|history| - 1], history[|history| - 1];
      LastFiledInHistory(before, q);
      InLonger(before, r, history);
      if FiledAs(r, q) {
        assert r.id == LastFiled(history, q);
      } else if LastFiled(before, q).Some? {
        var r' :| r' in before && FiledAs(r', q) && r'.id == LastFiled(before, q);
        assert r' in history;
      }
    }
  }

  // ----- main results

  /** What the double check of the lookup asks of the live record: the topic, the access flag, and the secret hash
      unless it is empty. The api key is not compared again. */
  predicate Passes(history: seq<Record>, id: int, q: Request)
  {
    Live(history, id) &&
    var r := LastWord(history, id).value;
    && r.topicName == q.topic && (r.secretHash.value == "" || r.secretHash.value == Md5(q.secret))
    && if q.access == Read then r.readAccess else r.writeAccess
  }

  /** Whose record answers, for every history whatever: the last id ever filed under the key of the request, if its
      live record passes the double check. */
  lemma AnswersExactly(history: seq<Record>, q: Request, id: int)
    requires NoCollision(history, q)
    ensures Answering(Load(history), q) == Some(id) <==> LastFiled(history, q) == Some(id) && Passes(history, id, q)
  {
    hide Load, LastWord, Md5, LastFiled, NoCollision;
    TableFollowsHistory(history);
    IndexIsLastFiled(history, q);
  }

  /** The lookup meets a missing record, the branch that "should never happen". */
  predicate MissingRecord(t: Tables, q: Request)
  {
    var hash := Md5(RequestKey(q));
    hash in t.index && t.index[hash] !in t.authdata
  }

  /** That branch is reached exactly when the last id filed under the key of the request is not live. */
  lemma MissingRecordExactly(history: seq<Record>, q: Request)
    requires NoCollision(history, q)
    ensures MissingRecord(Load(history), q)
       <==> LastFiled(history, q).Some? && !Live(history, LastFiled(history, q).value)
  {
    hide Load, LastWord, Md5, DataOf, LastFiled, NoCollision, RequestKey;
    TableFollowsHistory(history);
    IndexIsLastFiled(history, q);
  }

  /** The last word about id comes before the i-th record, which filed another id under the key of the request. */
  predicate OtherFiledAt(history: seq<Record>, i: nat, id: int, q: Request)
    requires i < |history|
  {
    && FiledAs(history[i], q) && history[i].id != Some(id)
    && forall j :: i < j < |history| ==> !SpeaksOf(history[j], id)
  }

  predicate SpeaksOf(r: Record, id: int) { Complete(r) && r.id.value == id }

  ghost predicate OtherFiledLater(history: seq<Record>, id: int, q: Request)
  {
    exists i: nat | i < |history| :: OtherFiledAt(history, i, id, q)
  }

  /** An id whose last record was filed under the key is no longer the last filed exactly if some record of another
      id was filed under the same key after it. */
  lemma {:induction false} OvertakenExactly(history: seq<Record>, id: int, q: Request)
    requires LastWord(history, id).Some? && FiledAs(LastWord(history, id).value, q)
    ensures LastFiled(history, q) != Some(id) <==> OtherFiledLater(history, id, q)
  {
    hide FiledAs;
    var n := |history| - 1;
    var before, r := history[..n], history[n];
    if SpeaksOf(r, id) {
      forall i: nat | i < |history| ensures !OtherFiledAt(history, i, id, q) {
        assert i < n ==> SpeaksOf(history[n], id);
      }
    } else if FiledAs(r, q) {
      FiledIsComplete(r, q);
      assert OtherFiledAt(history, n, id, q);
    } else {
      OvertakenExactly(before, id, q);
      forall i: nat | i < n ensures OtherFiledAt(before, i, id, q) <==> OtherFiledAt(history, i, id, q) {
        SameBefore(history, i, id, q);
      }
    }
  }

  lemma FiledIsComplete(r: Record, q: Request)
    requires FiledAs(r, q)
    ensures Complete(r)
  {}

  lemma SameBefore(history: seq<Record>, i: nat, id: int, q: Request)
    requires i < |history| - 1 && !SpeaksOf(history[|history| - 1], id)
    ensures OtherFiledAt(history[..|history| - 1], i, id, q) <==> OtherFiledAt(history, i, id, q)
  {
    hide FiledAs, SpeaksOf;
    var before := history[..|history| - 1];
    assert forall j :: 0 <= j < |before| ==> before[j] == history[j];
  }

  /** Answers, but for an outdated api key or past an empty secret hash. */
  predicate AnswersOutdated(history: seq<Record>, id: int, q: Request)
  {
    && LastFiled(history, q) == Some(id) && Passes(history, id, q)
    && var r := LastWord(history, id).value;
       r.apiKey.value != q.apiKey || r.secretHash.value == ""
  }

  /** The lookup and the scan agree about an id exactly if the id does not answer for an outdated api key or past an
      empty secret hash, and is not permitted but overtaken by a later record of another id under the same key. */
  lemma AgreesWithScanExactly(history: seq<Record>, q: Request, id: int)
    requires NoCollision(history, q)
    ensures
      (Answering(Load(history), q) == Some(id) <==> Permits(history, id, q)) <==>
      !AnswersOutdated(history, id, q) && !(Permits(history, id, q) && OtherFiledLater(history, id, q))
  {
    hide Load, LastWord, Md5, LastFiled, Answering, NoCollision, OtherFiledLater;
    AnswersExactly(history, q, id);
    if Permits(history, id, q) {
      OvertakenExactly(history, id, q);
    }
  }

  /** On well-formed histories the lookup through the index is the scan of the live records: it grants what some
      live record permits, with that record's topic and tenant, and nothing else. */
  lemma AuthorizeIsScan(history: seq<Record>, q: Request)
    requires WellFormed(history) && NoCollision(history, q)
    ensures forall id :: Permits(history, id, q) ==>
      var r := LastWord(history, id).value;
      Authorize(Load(history), q) == (if r.kafkaTopic == None then "" else r.kafkaTopic.value, r.tenantId.value)
    ensures (forall id :: !Permits(history, id, q)) ==> Authorize(Load(history), q) == ("", 0)
  {
    hide Load, LastWord, Md5, Answering, LastFiled;
    TableFollowsHistory(history);
    forall id ensures Answering(Load(history), q) == Some(id) <==> Permits(history, id, q) {
      LookupIsScan(history, q, id);
    }
  }

  lemma LookupIsScan(history: seq<Record>, q: Request, id: int)
    requires WellFormed(history) && NoCollision(history, q)
    ensures Answering(Load(history), q) == Some(id) <==> Permits(history, id, q)
  {
    hide Load, LastWord, Md5, Answering, LastFiled, NoCollision, Key;
    AnswersExactly(history, q, id);
    LastFiledInHistory(history, q);
    if Passes(history, id, q) {
      LastWordInHistory(history, id);
      var now, last := LastWord(history, id).value, LastFiled(history, q);
      HexHasNoHash(Md5(q.secret));
      if last.Some? {
        var r :| r in history && FiledAs(r, q) && r.id == last;
        KeyParts(r.topicName, r.apiKey.value, r.secretHash.value, q.topic, q.apiKey, Md5(q.secret));
      } else {
        assert Permits(history, id, q) ==> FiledAs(now, q);
      }
    }
  }

  /** Of the records about its id that lack none of the six optional fields, the i-th is the last, it neither disables
      nor deletes, and it carries these credentials. */
  ghost predicate LiveRecordAt(history: seq<Record>, i: nat, apiKey: string, secret: string, topic: string)
    requires i < |history|
  {
    var r := history[i];
    && r.id.Some? && r.tenantId.Some? && r.isDisabled == Some(false) && r.isDeleted == Some(false)
    && r.apiKey == Some(apiKey) && r.secretHash == Some(Md5(secret)) && r.topicName == topic
    && forall j :: i < j < |history| && history[j].id == r.id ==>
         history[j].tenantId == None || history[j].isDisabled == None || history[j].isDeleted == None
         || history[j].apiKey == None || history[j].secretHash == None
  }

  /** The i-th record answers the request exactly if its flag for that kind of access is set. */
  ghost predicate AnswersByFlag(history: seq<Record>, i: nat, q: Request)
    requires i < |history| && history[i].tenantId.Some?
  {
    var r := history[i];
    var flag := if q.access == Read then r.readAccess else r.writeAccess;
    Authorize(Load(history), q) ==
      if flag then (if r.kafkaTopic == None then "" else r.kafkaTopic.value, r.tenantId.value) else ("", 0)
  }

  /** On well-formed histories, with the records as they were sent: the live record of the credentials lets a reader in
      exactly if it has read access and a writer exactly if it has write access, under its own topic and tenant, and
      nobody is let in without such a record. */
  lemma ReadAndWriteExactly(history: seq<Record>, q: Request)
    requires WellFormed(history) && NoCollision(history, q)
    ensures forall i: nat | i < |history| && LiveRecordAt(history, i, q.apiKey, q.secret, q.topic) ::
      AnswersByFlag(history, i, q)
    ensures (forall i: nat | i < |history| :: !LiveRecordAt(history, i, q.apiKey, q.secret, q.topic)) ==>
      Authorize(Load(history), q) == ("", 0)
  {
    hide Load, LastWord, Md5, Authorize, LiveRecordAt, NoCollision, AnswersByFlag;
    AuthorizeIsScan(history, q);
    forall i: nat | i < |history| && LiveRecordAt(history, i, q.apiKey, q.secret, q.topic)
      ensures history[i].tenantId.Some? && AnswersByFlag(history, i, q)
    {
      LiveRecordAnswers(history, i, q);
    }
    forall id | Permits(history, id, q)
      ensures exists i: nat | i < |history| :: LiveRecordAt(history, i, q.apiKey, q.secret, q.topic)
    {
      PermittedHasRecord(history, id, q);
    }
  }

  lemma {:induction false} LastWordAt(history: seq<Record>, i: nat)
    requires i < |history| && Complete(history[i])
    requires forall j :: i < j < |history| && history[j].id == history[i].id ==> !Complete(history[j])
    ensures LastWord(history, history[i].id.value) == Some(history[i])
  {
    var n := |history| - 1;
    if i < n {
      assert history[..n][i] == history[i];
      LastWordAt(history[..n], i);
    }
  }

  lemma LiveRecordIsLastWord(history: seq<Record>, i: nat, q: Request)
    requires i < |history| && LiveRecordAt(history, i, q.apiKey, q.secret, q.topic)
    ensures var r := history[i]; Upserts(r) && LastWord(history, r.id.value) == Some(r)
    ensures var r := history[i];
      r.topicName == q.topic && r.apiKey.value == q.apiKey && r.secretHash.value == Md5(q.secret)
  {
    hide Md5, LastWord;
    LastWordAt(history, i);
  }

  lemma LiveRecordAnswers(history: seq<Record>, i: nat, q: Request)
    requires WellFormed(history) && NoCollision(history, q)
    requires i < |history| && LiveRecordAt(history, i, q.apiKey, q.secret, q.topic)
    ensures history[i].tenantId.Some? && AnswersByFlag(history, i, q)
  {
    hide Load, LastWord, Md5, Authorize, LiveRecordAt, NoCollision;
    LiveRecordIsLastWord(history, i, q);
    AuthorizeIsScan(history, q);
    var id := history[i].id.value;
    if !Permits(history, id, q) {
      forall id' ensures !Permits(history, id', q) {
        LastWordInHistory(history, id');
      }
    }
  }

  lemma {:induction false} LastWordIsAt(history: seq<Record>, id: int) returns (i: nat)
    requires LastWord(history, id).Some?
    ensures i < |history| && history[i] == LastWord(history, id).value && Complete(history[i])
    ensures forall j :: i < j < |history| && history[j].id == history[i].id ==> !Complete(history[j])
  {
    i := |history| - 1;
    if !(Complete(history[i]) && history[i].id.value == id) {
      var n := i;
      LastWordInHistory(history[..n], id);
      i := LastWordIsAt(history[..n], id);
      assert forall j :: 0 <= j < n ==> history[..n][j] == history[j];
    }
  }

  lemma PermittedHasRecord(history: seq<Record>, id: int, q: Request)
    requires Permits(history, id, q)
    ensures exists i: nat | i < |history| :: LiveRecordAt(history, i, q.apiKey, q.secret, q.topic)
  {
    hide LastWord, Md5;
    var i := LastWordIsAt(history, id);
    assert LiveRecordAt(history, i, q.apiKey, q.secret, q.topic);
  }

  /** A record that lacks one of the six optional fields changes nothing. */
  lemma IncompleteIsIgnored(history: seq<Record>, r: Record)
    requires r.id == None || r.tenantId == None || r.isDisabled == None || r.isDeleted == None || r.apiKey == None
          || r.secretHash == None
    ensures Load(history + [r]) == Load(history)
  {
    assert (history + [r])[..|history|] == history;
  }

  /** Once a record has disabled or deleted an id, no request is answered from that id until a record that does neither
      comes in for it, although the delete leaves every index entry in place. No assumption is needed. */
  lemma {:induction false} RemovedIdIsSilent(history: seq<Record>, r: Record, later: seq<Record>, q: Request)
    requires r.id.Some? && r.tenantId.Some? && r.isDisabled.Some? && r.isDeleted.Some? && r.apiKey.Some?
    requires r.secretHash.Some? && (r.isDisabled == Some(true) || r.isDeleted == Some(true))
    requires forall x :: x in later && x.isDisabled == Some(false) && x.isDeleted == Some(false) ==> x.id != r.id
    ensures Answering(Load(history + [r] + later), q) != Some(r.id.value)
    ensures Load(history + [r]).index == Load(history).index
  {
    hide Md5, KeyOf, DataOf;
    assert (history + [r])[..|history|] == history;
    var t := Load(history);
    if r.id.value in t.authdata {
      var d := t.authdata[r.id.value];
      EraseRemovesNothing(history, d.topicName, d.apiKey);
    }
    Absent(history + [r], r.id.value, later);
  }

  lemma {:induction false} Absent(history: seq<Record>, id: int, later: seq<Record>)
    requires id !in Load(history).authdata
    requires forall x :: x in later && Upserts(x) ==> x.id.value != id
    ensures id !in Load(history + later).authdata
  {
    if later == [] {
      assert history + later == history;
    } else {
      hide Md5, KeyOf, DataOf;
      Absent(history, id, later[..|later| - 1]);
      assert (history + later)[..|history + later| - 1] == history + later[..|later| - 1];
    }
  }

  function Upsert(id: int, apiKey: string, secretHash: string): Record
  {
    Record(Some(id), Some(1), Some(false), Some(false), Some(apiKey), Some(secretHash), "metrics", Some("T"),
           true, true)
  }

  function Deleted(r: Record): Record { r.(isDeleted := Some(true)) }

  lemma LoadOneMore(history: seq<Record>, r: Record)
    ensures Load(history + [r]) == Apply(Load(history), r)
    ensures forall id :: LastWord(history + [r], id) == if SpeaksOf(r, id) then Some(r) else LastWord(history, id)
  {
    assert (history + [r])[..|history|] == history;
  }

  lemma LoadTwo(r: Record, r': Record)
    ensures Load([r, r']) == Apply(Apply(Tables(map[], map[]), r), r')
    ensures forall id ::
      LastWord([r, r'], id) == if SpeaksOf(r', id) then Some(r') else if SpeaksOf(r, id) then Some(r) else None
  {
    hide Apply;
    LoadOneMore([], r);
    LoadOneMore([r], r');
    assert [] + [r] == [r] && [r] + [r'] == [r, r'];
  }

  /** A key with read access only opens no sink. */
  lemma ReadOnlyKey(secret: string)
    ensures
      var r := Upsert(1, "key", Md5(secret)).(writeAccess := false);
      && Authorize(Load([r]), Request(Read, "key", secret, "metrics")) == ("T", 1)
      && Authorize(Load([r]), Request(Write, "key", secret, "metrics")) == ("", 0)
  {
    hide Md5;
    LoadOneMore([], Upsert(1, "key", Md5(secret)).(writeAccess := false));
  }

  /** A key with write access only reads nothing; a record without a Kafka topic grants the empty one. */
  lemma WriteOnlyKey(secret: string)
    ensures
      var r := Upsert(1, "key", Md5(secret)).(readAccess := false, kafkaTopic := None);
      && Authorize(Load([r]), Request(Read, "key", secret, "metrics")) == ("", 0)
      && Authorize(Load([r]), Request(Write, "key", secret, "metrics")) == ("", 1)
  {
    hide Md5;
    LoadOneMore([], Upsert(1, "key", Md5(secret)).(readAccess := false, kafkaTopic := None));
  }

  /** Why an id has to keep its api key: the key it had before still opens it. */
  lemma OldApiKeyStillOpens(secret: string)
    ensures
      var history := [Upsert(1, "old", Md5(secret)), Upsert(1, "new", Md5(secret))];
      var q := Request(Write, "old", secret, "metrics");
      Authorize(Load(history), q) == ("T", 1) && forall id :: !Permits(history, id, q)
  {
    hide Md5;
    LoadTwo(Upsert(1, "old", Md5(secret)), Upsert(1, "new", Md5(secret)));
    assert "old"[0] != "new"[0];
  }

  /** Why secret hashes have to be non-empty: once the hash is empty, an older secret is accepted unchecked. */
  lemma EmptyHashAcceptsOldSecret(secret: string)
    ensures
      var history := [Upsert(1, "key", Md5(secret)), Upsert(1, "key", "")];
      var q := Request(Write, "key", secret, "metrics");
      Authorize(Load(history), q) == ("T", 1) && forall id :: !Permits(history, id, q)
  {
    hide Md5;
    LoadTwo(Upsert(1, "key", Md5(secret)), Upsert(1, "key", ""));
  }

  /** Why no two ids may share a key: id 2 takes over the entry of id 1 and is deleted, and id 1 is refused although
      its record is live and permits the request. The lookup ends in the branch for a missing record. */
  lemma OvertakenIsRefused(secret: string)
    ensures
      var first, second := Upsert(1, "key", Md5(secret)), Upsert(2, "key", Md5(secret));
      var history := [first, second] + [Deleted(second)];
      var q := Request(Write, "key", secret, "metrics");
      Permits(history, 1, q) && Authorize(Load(history), q) == ("", 0) && MissingRecord(Load(history), q)
  {
    hide Md5;
    var first, second := Upsert(1, "key", Md5(secret)), Upsert(2, "key", Md5(secret));
    LoadTwo(first, second);
    LoadOneMore([first, second], Deleted(second));
    HashIsNoErasedKey(RequestKey(Request(Write, "key", secret, "metrics")), "metrics", "key");
  }

  /** Not every delete leads there: with id 1 deleted the entry still points to the live record of id 2. */
  lemma DeleteCanGoUnnoticed(secret: string)
    ensures
      var first, second := Upsert(1, "key", Md5(secret)), Upsert(2, "key", Md5(secret));
      var history := [first, second] + [Deleted(first)];
      var q := Request(Write, "key", secret, "metrics");
      Authorize(Load(history), q) == ("T", 1) && !MissingRecord(Load(history), q)
  {
    hide Md5;
    var first, second := Upsert(1, "key", Md5(secret)), Upsert(2, "key", Md5(secret));
    LoadTwo(first, second);
    LoadOneMore([first, second], Deleted(first));
    HashIsNoErasedKey(RequestKey(Request(Write, "key", secret, "metrics")), "metrics", "key");
  }

  // ----- the authorizer object, which updates its maps in place

  class TopicAuthorizer {
    var authdata: map<int, AuthData>
    var apikey2id: map<string, int>
    ghost var history: seq<Record>

    ghost predicate Valid()
      reads this
    {
      Load(history) == Tables(authdata, apikey2id)
    }

    constructor ()
      ensures Valid() && history == []
    {
      authdata, apikey2id, history := map[], map[], [];
    }

    /** The visitor that bg_thread runs on every record of the topic. */
    method Visit(r: Record)
      requires Valid()
      modifies this
      ensures Valid() && history == old(history) + [r]
    {
      hide Md5, KeyOf, DataOf;
      assert (history + [r])[..|history|] == history;
      history := history + [r];
      if r.id.None? || r.tenantId.None? || r.isDisabled.None? || r.isDeleted.None? || r.apiKey.None?
         || r.secretHash.None? {
        return;
      }
      var id := r.id.value;
      if r.isDisabled.value || r.isDeleted.value {
        if id in authdata {
          var topicAndApiKey := authdata[id].topicName + "#" + authdata[id].apiKey;
          apikey2id := apikey2id - {topicAndApiKey};
          authdata := authdata - {id};
        }
        return;
      }
      var hash := Md5(KeyOf(DataOf(r)));
      authdata := authdata[id := DataOf(r)];
      apikey2id := apikey2id[hash := id];
    }

    /** authorize_read and authorize_write, which differ in the flag they test. */
    method AuthorizeAccess(access: Access, apiKey: string, secret: string, topic: string) returns (r: (string, int))
      requires Valid()
      ensures r == Authorize(Load(history), Request(access, apiKey, secret, topic))
    {
      hide Md5, Load;
      var secretHash := Md5(secret);
      var hash := Md5(topic + "#" + apiKey + "#" + secretHash);
      if hash !in apikey2id {
        return ("", 0);
      }
      var id := apikey2id[hash];
      if id !in authdata {
        return ("", 0);
      }
      var d := authdata[id];
      if |d.secretHash| > 0 && d.secretHash != secretHash {
        return ("", 0);
      }
      if topic != d.topicName {
        return ("", 0);
      }
      if access == Read && !d.readAccess {
        return ("", 0);
      }
      if access == Write && !d.writeAccess {
        return ("", 0);
      }
      return (d.kafkaTopic, d.tenantId);
    }
  }
}
