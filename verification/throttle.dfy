/**
 `WavefrontAgent.sendWithThrottle` of wavefrontAgent.py: the stream is walked
 in steps of `BatchSize` lines, each step hands one payload to `netcat` and
 then sleeps. The socket work of `netcat` is replaced by an oracle that gives
 the outcome of the i-th send; the sleep is recorded as an event.

 As in the code, once `BatchSize` or fewer lines remain the payload is the
 WHOLE stream, not the remaining slice. `FixedPayload` is the slice the code
 evidently meant to send.
 */
module Throttle {
  import opened Text

  /** `_SEND_BATCH_SIZE`. */
  const BatchSize: nat := 100

  /** One observable step of the sender. */
  datatype Event = Send(payload: string, delivered: bool) | Sleep

  /** Number of loop rounds for a stream of `n` lines: the ceiling of `n / BatchSize`. */
  function SendCount(n: nat): (k: nat)
    ensures n <= BatchSize * k
    ensures k == 0 || BatchSize * (k - 1) < n
  {
    (n + BatchSize - 1) / BatchSize
  }

  /** The ceiling is the only count with those two properties. */
  lemma SendCountUnique(n: nat, k: nat)
    requires n <= BatchSize * k
    requires k == 0 || BatchSize * (k - 1) < n
    ensures k == SendCount(n)
  {
  }

  /**
   The payload built in the round that starts at line `start`, as the code
   builds it: the round's own `BatchSize`-line slice, newline-terminated,
   except that once `BatchSize` or fewer lines remain it is the entire stream.
   */
  function Payload(stream: seq<string>, start: nat): (p: string)
    requires start < |stream|
    ensures |stream| - start <= BatchSize ==> p == Terminated(stream)
    ensures |stream| - start > BatchSize ==> p == Terminated(stream[start..start + BatchSize])
  {
    if |stream| - start <= BatchSize then Join(stream) + "\n"
    else Join(stream[start..start + BatchSize]) + "\n"
  }

  /**
   The payloads of all rounds, in order: one per started chunk, the last
   carrying the whole stream.
   */
  function Payloads(stream: seq<string>): (ps: seq<string>)
    ensures |ps| == SendCount(|stream|)
    ensures |ps| > 0 ==> ps[|ps| - 1] == Terminated(stream)
  {
    var k := SendCount(|stream|);
    seq(k, i requires 0 <= i < k => Payload(stream, BatchSize * i))
  }

  /** Logging round `sent` extends a trace of the earlier rounds to one of all rounds so far. */
  lemma LogRound(stream: seq<string>, netcat: nat -> bool, trace: seq<Event>, sent: nat, content: string)
    requires BatchSize * sent < |stream| && |trace| == 2 * sent
    requires content == Payload(stream, BatchSize * sent)
    requires forall j :: 0 <= j < |trace| && j % 2 == 0 ==>
      trace[j] == Send(Payload(stream, BatchSize * (j / 2)), netcat(j / 2))
    requires forall j :: 0 <= j < |trace| && j % 2 == 1 ==> trace[j] == Sleep
    ensures var next := trace + [Send(content, netcat(sent)), Sleep];
      && (forall j :: 0 <= j < |next| && j % 2 == 0 ==>
            next[j] == Send(Payload(stream, BatchSize * (j / 2)), netcat(j / 2)))
      && (forall j :: 0 <= j < |next| && j % 2 == 1 ==> next[j] == Sleep)
  {
    var next := trace + [Send(content, netcat(sent)), Sleep];
    forall j | 0 <= j < |next| && j % 2 == 0
      ensures next[j] == Send(Payload(stream, BatchSize * (j / 2)), netcat(j / 2))
    {
      if j < |trace| {
        assert next[j] == trace[j];
      } else {
        assert j == 2 * sent;
      }
    }
  }

  /**
   The loop of `sendWithThrottle`. `netcat(i)` is the outcome of the i-th
   send. Round i sends `Payload(stream, BatchSize * i)` and then sleeps, so the
   trace alternates Send and Sleep, has one round per started chunk, and a
   failed send does not stop later rounds.
   */
  method SendWithThrottle(stream: seq<string>, netcat: nat -> bool) returns (trace: seq<Event>)
    ensures |trace| == 2 * SendCount(|stream|)
    ensures forall j :: 0 <= j < |trace| && j % 2 == 0 ==>
      trace[j] == Send(Payload(stream, BatchSize * (j / 2)), netcat(j / 2))
    ensures forall j :: 0 <= j < |trace| && j % 2 == 1 ==> trace[j] == Sleep
  {
    var start := 0;
    var size := |stream|;
    var sent := 0;
    trace := [];
    while start < size
      invariant start == BatchSize * sent
      invariant sent == 0 || BatchSize * (sent - 1) < size
      invariant |trace| == 2 * sent
      invariant forall j :: 0 <= j < |trace| && j % 2 == 0 ==>
        trace[j] == Send(Payload(stream, BatchSize * (j / 2)), netcat(j / 2))
      invariant forall j :: 0 <= j < |trace| && j % 2 == 1 ==> trace[j] == Sleep
      decreases size - start
    {
      var content: string;
      if size - start <= BatchSize {
        content := Join(stream);
      } else {
        content := Join(stream[start..start + BatchSize]);
      }
      content := content + "\n";
      var dataSent := netcat(sent);
      LogRound(stream, netcat, trace, sent, content);
      trace := trace + [Send(content, dataSent), Sleep];
      start := start + BatchSize;
      sent := sent + 1;
    }
    SendCountUnique(size, sent);
  }

  /** A round before the last sends its own chunk, newline-terminated. */
  lemma EarlyRound(stream: seq<string>, i: nat)
    requires i + 1 < SendCount(|stream|)
    ensures Payloads(stream)[i] == Terminated(stream[BatchSize * i..BatchSize * i + BatchSize])
  {
    assert Payloads(stream)[i] == Payload(stream, BatchSize * i);
  }

  /** Parts that are consecutive `BatchSize`-line chunks flatten to the terminated prefix they cover. */
  lemma {:induction false} FlattenChunks(stream: seq<string>, ps: seq<string>, j: nat)
    requires j <= |ps| && BatchSize * j <= |stream|
    requires forall i :: 0 <= i < j ==> ps[i] == Terminated(stream[BatchSize * i..BatchSize * i + BatchSize])
    ensures Flatten(ps[..j]) == Terminated(stream[..BatchSize * j])
  {
    if j == 0 {
      assert ps[..0] == [];
      assert stream[..0] == [];
    } else {
      var s0 := BatchSize * (j - 1);
      var s1 := s0 + BatchSize;
      var head := Flatten(ps[..j - 1]);
      assert head == Terminated(stream[..s0]) by {
        FlattenChunks(stream, ps, j - 1);
      }
      assert Flatten(ps[..j]) == head + ps[j - 1] by {
        FlattenSnoc(ps[..j]);
        assert ps[..j][..j - 1] == ps[..j - 1];
      }
      TerminatedExtend(stream, s0, s1);
    }
  }

  /** The text of the first `j` non-final rounds is the first `j` chunks, newline-terminated. */
  lemma EarlyRoundsText(stream: seq<string>, j: nat)
    requires j < SendCount(|stream|)
    ensures Flatten(Payloads(stream)[..j]) == Terminated(stream[..BatchSize * j])
  {
    var ps := Payloads(stream);
    forall i | 0 <= i < j
      ensures ps[i] == Terminated(stream[BatchSize * i..BatchSize * i + BatchSize])
    {
      EarlyRound(stream, i);
    }
    FlattenChunks(stream, ps, j);
  }

  /**
   What the proxy receives over a whole flush: the chunks before the last,
   and then the entire stream once more.
   */
  lemma WireTextAsWritten(stream: seq<string>)
    requires |stream| > 0
    ensures Flatten(Payloads(stream)) ==
      Terminated(stream[..BatchSize * (SendCount(|stream|) - 1)]) + Terminated(stream)
  {
    var ps := Payloads(stream);
    var last := SendCount(|stream|) - 1;
    assert Flatten(ps[..last]) == Terminated(stream[..BatchSize * last]) by {
      EarlyRoundsText(stream, last);
    }
    assert Flatten(ps) == Flatten(ps[..last]) + ps[last] by {
      FlattenSnoc(ps);
      assert ps[..|ps| - 1] == ps[..last];
    }
  }

  /**
   With more than `BatchSize` lines the proxy receives more lines than the
   stream holds: the first `BatchSize * (k - 1)` lines arrive twice.
   */
  lemma ResendsLinesAsWritten(stream: seq<string>)
    requires |stream| > BatchSize
    requires NoNewlines(stream)
    ensures SplitLines(Flatten(Payloads(stream))) ==
      stream[..BatchSize * (SendCount(|stream|) - 1)] + stream
    ensures |SplitLines(Flatten(Payloads(stream)))| > |stream|
  {
    var head := stream[..BatchSize * (SendCount(|stream|) - 1)];
    WireTextAsWritten(stream);
    TerminatedAppend(head, stream);
    assert NoNewlines(head + stream) by {
      forall i, c | 0 <= i < |head + stream| && 0 <= c < |(head + stream)[i]|
        ensures (head + stream)[i][c] != '\n'
      {
        if i < |head| {
          assert (head + stream)[i] == stream[i];
        } else {
          assert (head + stream)[i] == stream[i - |head|];
        }
      }
    }
    SplitTerminated(head + stream);
  }

  /** The payload the round starting at `start` evidently should send: its own slice. */
  function FixedPayload(stream: seq<string>, start: nat): (p: string)
    requires start < |stream|
    ensures |stream| - start <= BatchSize ==> p == Terminated(stream[start..])
    ensures |stream| - start > BatchSize ==> p == Terminated(stream[start..start + BatchSize])
  {
    var stop := if |stream| - start <= BatchSize then |stream| else start + BatchSize;
    assert stream[start..stop] == if stop == |stream| then stream[start..] else stream[start..start + BatchSize];
    Join(stream[start..stop]) + "\n"
  }

  /** The payloads of all rounds with the slice the code evidently meant. */
  function FixedPayloads(stream: seq<string>): (ps: seq<string>)
    ensures |ps| == SendCount(|stream|)
  {
    var k := SendCount(|stream|);
    seq(k, i requires 0 <= i < k => FixedPayload(stream, BatchSize * i))
  }

  /**
   With slices as payloads the proxy receives every line exactly once and in
   order, for streams of any length (the empty one included).
   */
  lemma FixedDeliversStreamOnce(stream: seq<string>)
    ensures Flatten(FixedPayloads(stream)) == Terminated(stream)
  {
    var ps := FixedPayloads(stream);
    var k := SendCount(|stream|);
    if k == 0 {
      assert ps == [] && stream == [];
    } else {
      var last := k - 1;
      var s0 := BatchSize * last;
      assert Flatten(ps[..last]) == Terminated(stream[..s0]) by {
        forall i | 0 <= i < last
          ensures ps[i] == Terminated(stream[BatchSize * i..BatchSize * i + BatchSize])
        {
          assert ps[i] == FixedPayload(stream, BatchSize * i);
        }
        FlattenChunks(stream, ps, last);
      }
      assert ps[last] == Terminated(stream[s0..|stream|]) by {
        assert ps[last] == FixedPayload(stream, s0);
        assert stream[s0..] == stream[s0..|stream|];
      }
      assert Flatten(ps) == Flatten(ps[..last]) + ps[last] by {
        FlattenSnoc(ps);
        assert ps[..|ps| - 1] == ps[..last];
      }
      TerminatedExtend(stream, s0, |stream|);
      assert stream[..|stream|] == stream;
    }
  }

  /** A receiver splitting the fixed flush's text reads back exactly the stream's lines. */
  lemma FixedReadsBackStream(stream: seq<string>)
    requires NoNewlines(stream)
    ensures SplitLines(Flatten(FixedPayloads(stream))) == stream
  {
    FixedDeliversStreamOnce(stream);
    SplitTerminated(stream);
  }

  /** Up to `BatchSize` lines, the code and the fixed slice agree. */
  lemma SmallStreamsAgree(stream: seq<string>)
    requires |stream| <= BatchSize
    ensures Payloads(stream) == FixedPayloads(stream)
  {
    assert stream[0..|stream|] == stream;
  }
}
