/** The line framing of programs/client-proxies/bb-monitor-dd-log-proxy/main.cpp: handle_read splits what
    arrives on a socket into lines, one at most for each read. */
module LineFraming {
  import opened Text

  const MAX_LENGTH: nat := 0x1_0000

  /** Handing over the text up to the first line feed keeps the account of what was received. */
  lemma TakeLine(handled: seq<string>, line: string, pending: string, n: nat)
    requires n < |pending| && pending[n] == LF
    ensures Terminated(handled) + line + pending == Terminated(handled + [line + pending[..n]]) + "" + pending[n + 1..]
  {
    var t, all := Terminated(handled), handled + [line + pending[..n]];
    assert all[..|all| - 1] == handled;
    assert Terminated(all) == t + (line + pending[..n] + [LF]);
    hide Terminated;
    assert pending == pending[..n] + [LF] + pending[n + 1..];
  }

  /** Text without a line feed joins the open line. */
  lemma StoreAll(t: string, line: string, pending: string)
    ensures t + line + pending == t + (line + pending) + ""
  {}

  lemma FoundFirst(pending: string, n: nat)
    requires n <= |pending| && LF !in pending[..n] && (n < |pending| ==> pending[n] == LF)
    ensures LF in pending <==> n < |pending|
    ensures n < |pending| ==> FirstLF(pending) == n
  {
    if n == |pending| {
      assert pending[..n] == pending;
    } else {
      FirstLFIs(pending, n);
    }
  }

  class Session {
    const buffer: array<char>
    var remaining: nat
    var line: string
    ghost var handled: seq<string>
    ghost var received: string

    /** Everything received is in the handled lines, the line being put together, or the buffer; there is
        always room for another read. */
    ghost predicate Valid()
      reads this, buffer
    {
      && buffer.Length == MAX_LENGTH && remaining < MAX_LENGTH
      && received == Terminated(handled) + line + buffer[..remaining]
      && NoLF(handled) && LF !in line
    }

    constructor ()
      ensures Valid() && received == "" && handled == [] && line == "" && remaining == 0 && fresh(buffer)
      ensures buffer.Length == 65536
    {
      buffer := new char[MAX_LENGTH];
      remaining, line, handled, received := 0, "", [], "";
    }

    /** memchr for the line feed, or len when there is none. */
    method FindLF(len: nat) returns (n: nat)
      requires len <= buffer.Length
      ensures n <= len && LF !in buffer[..n] && (n < len ==> buffer[n] == LF)
    {
      n := 0;
      while n < len && buffer[n] != LF
        invariant n <= len && LF !in buffer[..n]
      {
        assert buffer[..n + 1] == buffer[..n] + [buffer[n]];
        n := n + 1;
      }
    }

    /** What the socket delivers, behind the bytes already in the buffer. */
    method Receive(data: string)
      requires remaining + |data| <= buffer.Length
      modifies buffer
      ensures buffer[..remaining + |data|] == old(buffer[..remaining]) + data
    {
      forall k | 0 <= k < |data| {
        buffer[remaining + k] := data[k];
      }
    }

    /** memmove of count bytes to the start of the buffer. */
    method MoveDown(from: nat, count: nat)
      requires from + count <= buffer.Length
      modifies buffer
      ensures buffer[..count] == old(buffer[from..from + count])
    {
      forall k | 0 <= k < count {
        buffer[k] := buffer[from + k];
      }
    }

    /** The line is complete at position n: hand it over and keep what comes after its line feed. */
    method EndLine(n: nat, len: nat, ghost before: string)
      requires buffer.Length == MAX_LENGTH && n < len <= MAX_LENGTH && buffer[n] == LF
      requires line == before + buffer[..n] && LF !in line && NoLF(handled)
      requires received == Terminated(handled) + before + buffer[..len]
      modifies this, buffer
      ensures Valid() && received == old(received) && handled == old(handled) + [old(line)] && line == ""
      ensures buffer[..remaining] == old(buffer[n + 1..len])
    {
      hide Terminated, NoLF;
      ghost var pending := buffer[..len];
      assert pending[..n] == buffer[..n] && pending[n + 1..] == buffer[n + 1..len];
      TakeLine(handled, before, pending, n);
      MoreLines(handled, line);
      remaining := len - n - 1;
      MoveDown(n + 1, remaining);
      handled := handled + [line];
      line := "";
    }

    /** The read was posted for the space left in the buffer, so data fits there. */
    method HandleRead(data: string)
      requires Valid() && |data| <= MAX_LENGTH - remaining
      modifies this, buffer
      ensures Valid() && received == old(received) + data
      ensures
        var pending := old(buffer[..remaining]) + data;
        if LF in pending then
          handled == old(handled) + [old(line) + pending[..FirstLF(pending)]] && line == ""
          && buffer[..remaining] == pending[FirstLF(pending) + 1..]
        else handled == old(handled) && line == old(line) + pending && remaining == 0
    {
      hide Terminated, FirstLF, NoLF;
      ghost var pending := buffer[..remaining] + data;
      Regroup(Terminated(handled) + line, buffer[..remaining], data);
      Receive(data);
      var len := remaining + |data|;
      received := received + data;
      assert buffer[..len] == pending;
      var n := FindLF(len);
      assert buffer[..n] == pending[..n];
      FoundFirst(pending, n);
      line := line + buffer[..n];
      if n == len {
        remaining := 0;
        assert pending[..n] == pending && buffer[..0] == "";
        StoreAll(Terminated(handled), old(line), pending);
      } else {
        assert buffer[n + 1..len] == pending[n + 1..];
        EndLine(n, len, old(line));
      }
    }
  }

  /** For every way the stream arrives in reads, the handled lines are a prefix of its lines, in order; the
      lines still missing are exactly those complete in the rest. */
  lemma HandledArePrefix(s: Session)
    requires s.Valid()
    ensures LinesOf(s.received) == s.handled + LinesOf(s.line + s.buffer[..s.remaining])
  {
    var rest := s.line + s.buffer[..s.remaining];
    assert s.received == Terminated(s.handled) + rest;
    LinesOfTerminated(s.handled, rest);
  }

  /** A read hands over one line at most: every complete line has been handled exactly if no line feed is left in
      the buffer. */
  lemma CaughtUpExactly(s: Session)
    requires s.Valid()
    ensures s.handled == LinesOf(s.received) <==> LF !in s.buffer[..s.remaining]
  {
    HandledArePrefix(s);
    var rest := s.line + s.buffer[..s.remaining];
    var n := FirstLF(rest);
    if LF in s.buffer[..s.remaining] {
      var k :| 0 <= k < s.remaining && s.buffer[..s.remaining][k] == LF;
      assert rest[|s.line| + k] == LF;
      assert n < |rest|;
      assert |LinesOf(rest)| > 0;
    } else {
      assert LF !in rest;
    }
  }

  /** Read a stream in any chunks: each read asks for the space left in the buffer and gets some bytes. */
  method ReadStream(stream: string, sizes: seq<nat>) returns (s: Session, consumed: nat)
    ensures s.Valid() && consumed <= |stream| && s.received == stream[..consumed]
    ensures s.handled <= LinesOf(stream)
  {
    hide LinesOf, Terminated;
    s := new Session();
    consumed := 0;
    for i := 0 to |sizes|
      invariant fresh(s) && fresh(s.buffer) && s.Valid()
      invariant consumed <= |stream| && s.received == stream[..consumed]
    {
      var size := if sizes[i] > MAX_LENGTH - s.remaining then MAX_LENGTH - s.remaining else sizes[i];
      size := if size > |stream| - consumed then |stream| - consumed else size;
      s.HandleRead(stream[consumed..consumed + size]);
      assert stream[..consumed] + stream[consumed..consumed + size] == stream[..consumed + size];
      consumed := consumed + size;
    }
    var rest := s.line + s.buffer[..s.remaining] + stream[consumed..];
    assert stream == Terminated(s.handled) + rest;
    LinesOfTerminated(s.handled, rest);
  }

  lemma TwoLines()
    ensures FirstLF("a\nb\n") == 1 && "a\nb\n"[..1] == "a" && "a\nb\n"[2..] == "b\n" && "" + "a" == "a"
    ensures LinesOf("a\nb\n") == ["a", "b"] && LF in "a\nb\n"
  {
    FirstLFIs("a\nb\n", 1);
    FirstOfTail("a", "b\n");
    FirstOfTail("b", "");
    assert "a" + [LF] + "b\n" == "a\nb\n" && "b" + [LF] + "" == "b\n";
    assert ["a"] + (["b"] + []) == ["a", "b"];
  }

  /** Two lines arrive in one read: the second waits in the buffer, complete, until more arrives. */
  method SecondLineWaits() returns (s: Session)
    ensures s.Valid() && LinesOf(s.received) == ["a", "b"] && s.handled == ["a"] && s.buffer[..s.remaining] == "b\n"
  {
    hide LinesOf, FirstLF, Terminated;
    TwoLines();
    s := new Session();
    assert s.buffer[..s.remaining] + "a\nb\n" == "a\nb\n" && [] + ["" + "a"] == ["a"];
    s.HandleRead("a\nb\n");
  }
}
