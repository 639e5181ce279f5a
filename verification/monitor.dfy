/**
 The pure part of one polling cycle of monitor.py: `createWavefrontAgent`
 folds the sample mapping into a fresh agent, and then the state list of the
 status word becomes one synthetic `vector.currentstate` point.

 The mapping is an ordered sequence of (key, value) pairs: a Python dict
 iterates in insertion order. `datetime.now()` becomes the `timestamp`
 argument.
 */
module Monitor {
  import opened Wavefront
  import opened States

  /** The metric name of the synthetic state point. */
  const CurrentStateMetric: string := "vector.currentstate"

  /** The entries of the mapping whose values are truthy, in mapping order. */
  function TruthyEntries(entries: seq<(string, Value)>): (kept: seq<(string, Value)>)
    ensures |kept| <= |entries|
    ensures forall i :: 0 <= i < |kept| ==> Truthy(kept[i].1)
  {
    if |entries| == 0 then []
    else (if Truthy(entries[0].1) then [entries[0]] else []) + TruthyEntries(entries[1..])
  }

  /** An entry is kept exactly when it is in the mapping with a truthy value. */
  lemma {:induction false} TruthyEntriesMembers(entries: seq<(string, Value)>)
    ensures forall e :: e in TruthyEntries(entries) <==> e in entries && Truthy(e.1)
  {
    if |entries| > 0 {
      TruthyEntriesMembers(entries[1..]);
      assert forall e :: e in entries <==> e == entries[0] || e in entries[1..];
    }
  }

  /** The line of every entry with the default source and no tags. */
  function DefaultLines(entries: seq<(string, Value)>, timestamp: string, fmt: real -> string): (lines: seq<string>)
    requires forall i :: 0 <= i < |entries| ==> entries[i].1.Num?
    ensures |lines| == |entries|
  {
    if |entries| == 0 then []
    else [Line(entries[0].0, entries[0].1.r, timestamp, DefaultSource, None, fmt)]
         + DefaultLines(entries[1..], timestamp, fmt)
  }

  /**
   `for key, value in kvDict.items(): wavefrontAgent.appendToStream(key, value)`:
   the timestamp and every existing line stay, at most one line is added per
   entry, and stamped lines stay stamped.
   */
  function AppendAll(a: Agent, entries: seq<(string, Value)>, fmt: real -> string): (b: Agent)
    ensures b.timestamp == a.timestamp
    ensures |a.stream| <= |b.stream| <= |a.stream| + |entries|
    ensures b.stream[..|a.stream|] == a.stream
    ensures Stamped(a) ==> Stamped(b)
    decreases |entries|
  {
    if |entries| == 0 then a
    else
      var mid := AppendToStream(a, entries[0].0, entries[0].1, None, None, fmt);
      var b := AppendAll(mid, entries[1..], fmt);
      assert b.stream[..|a.stream|] == b.stream[..|mid.stream|][..|a.stream|];
      b
  }

  /** The fold keeps the timestamp and adds one default-source line per truthy entry, in order. */
  lemma {:induction false} AppendAllLines(a: Agent, entries: seq<(string, Value)>, fmt: real -> string)
    ensures AppendAll(a, entries, fmt).timestamp == a.timestamp
    ensures AppendAll(a, entries, fmt).stream ==
      a.stream + DefaultLines(TruthyEntries(entries), a.timestamp, fmt)
    decreases |entries|
  {
    if |entries| == 0 {
      assert a.stream + [] == a.stream;
    } else {
      var e := entries[0];
      var rest := entries[1..];
      var b := AppendToStream(a, e.0, e.1, None, None, fmt);
      var restLines := DefaultLines(TruthyEntries(rest), a.timestamp, fmt);
      assert AppendAll(a, entries, fmt) == AppendAll(b, rest, fmt);
      assert AppendAll(b, rest, fmt).stream == b.stream + restLines by {
        AppendAllLines(b, rest, fmt);
      }
      if Truthy(e.1) {
        var line := Line(e.0, e.1.r, a.timestamp, DefaultSource, None, fmt);
        AppendsLine(a, e.0, e.1, None, None, fmt);
        TruthyCons(entries, a.timestamp, fmt);
        Regroup(a.stream, b.stream, line, restLines, DefaultLines(TruthyEntries(entries), a.timestamp, fmt));
      } else {
        assert TruthyEntries(entries) == TruthyEntries(rest);
      }
    }
  }

  /** The lines of a mapping that starts with a truthy entry: that entry's line, then the rest's. */
  lemma TruthyCons(entries: seq<(string, Value)>, timestamp: string, fmt: real -> string)
    requires |entries| > 0 && Truthy(entries[0].1)
    ensures DefaultLines(TruthyEntries(entries), timestamp, fmt) ==
      [Line(entries[0].0, entries[0].1.r, timestamp, DefaultSource, None, fmt)]
      + DefaultLines(TruthyEntries(entries[1..]), timestamp, fmt)
  {
    var kept := TruthyEntries(entries[1..]);
    assert TruthyEntries(entries) == [entries[0]] + kept;
    assert ([entries[0]] + kept)[1..] == kept;
  }

  /**
   Appending one line and then the rest is appending the line-then-rest list.
   Stated over plain sequences so that `AppendAllLines` regroups without the
   verifier unfolding `Line`, which it otherwise does at great cost.
   */
  lemma Regroup(s: seq<string>, t: seq<string>, line: string, rest: seq<string>, all: seq<string>)
    requires t == s + [line] && all == [line] + rest
    ensures t + rest == s + all
  {
  }

  /**
   `createWavefrontAgent(kvDict)`: the stream holds one line per truthy entry,
   in mapping order, each with the default source and no tags, all stamped
   with the agent's timestamp.
   */
  function CreateAgent(timestamp: string, entries: seq<(string, Value)>, fmt: real -> string): (a: Agent)
    ensures a.timestamp == timestamp
    ensures a.stream == DefaultLines(TruthyEntries(entries), timestamp, fmt)
    ensures |a.stream| <= |entries|
    ensures Stamped(a)
  {
    AppendAllLines(NewAgent(timestamp), entries, fmt);
    AppendAll(NewAgent(timestamp), entries, fmt)
  }

  /**
   Lines 164-171 of the main loop as written: the mapping points, then, when
   some state is active, `appendToStream('vector.currentstate', 1, tag)`. The
   tag is the third positional argument and so lands in `source`.
   */
  function CyclePoints(timestamp: string, entries: seq<(string, Value)>, status: Option<int>,
                       fmt: real -> string): (a: Agent)
    ensures a.timestamp == timestamp
    ensures Stamped(a)
    ensures GetStates(status) == [] ==> a == CreateAgent(timestamp, entries, fmt)
    ensures GetStates(status) != [] ==>
      a.stream == CreateAgent(timestamp, entries, fmt).stream
        + [CurrentStateMetric + " " + fmt(1.0) + " " + timestamp + SourceKey + StateTag(GetStates(status))]
  {
    var agent := CreateAgent(timestamp, entries, fmt);
    var states := GetStates(status);
    if |states| > 0 then
      var tag := StateTag(states);
      assert EffectiveSource(Some(tag)) == tag;
      var b := AppendToStream(agent, CurrentStateMetric, Num(1.0), Some(tag), None, fmt);
      var line := CurrentStateMetric + " " + fmt(1.0) + " " + timestamp + SourceKey + tag;
      assert line + TagSuffix(None) == line;
      assert b.stream[|agent.stream|] == line;
      assert b.stream == b.stream[..|agent.stream|] + [b.stream[|agent.stream|]];
      b
    else
      agent
  }

  /**
   A state line written with the tag as its source reads as a point with an
   EMPTY source followed by the tag, and differs from the default-source one.
   */
  lemma TagAsSourceLine(timestamp: string, tag: string, fmt: real -> string)
    ensures CurrentStateMetric + " " + fmt(1.0) + " " + timestamp + SourceKey + tag
      == Line(CurrentStateMetric, 1.0, timestamp, "", Some(tag), fmt)
    ensures CurrentStateMetric + " " + fmt(1.0) + " " + timestamp + SourceKey + tag
      != Line(CurrentStateMetric, 1.0, timestamp, DefaultSource, Some(tag), fmt)
  {
    var head := CurrentStateMetric + " " + fmt(1.0) + " " + timestamp + SourceKey;
    assert head + "" == head;
    assert |Line(CurrentStateMetric, 1.0, timestamp, DefaultSource, Some(tag), fmt)|
      == |head| + |DefaultSource| + |tag|;
  }

  /**
   As written, the state point reaches the proxy with an EMPTY source followed
   by the state tokens: it is the line of a point whose source is `""` and whose
   tags are the tag text, never the default source.
   */
  lemma CurrentStateSourceAsWritten(timestamp: string, entries: seq<(string, Value)>, status: Option<int>,
                                    fmt: real -> string)
    requires GetStates(status) != []
    ensures var stream := CyclePoints(timestamp, entries, status, fmt).stream;
      var tag := StateTag(GetStates(status));
      && |stream| > 0
      && stream[|stream| - 1] == Line(CurrentStateMetric, 1.0, timestamp, "", Some(tag), fmt)
      && stream[|stream| - 1] != Line(CurrentStateMetric, 1.0, timestamp, DefaultSource, Some(tag), fmt)
  {
    var tag := StateTag(GetStates(status));
    TagAsSourceLine(timestamp, tag, fmt);
  }

  /** A robot that is only moving: the state point as written reads `source= IS_MOVING=1`. */
  lemma MovingRobotAsWritten(timestamp: string, fmt: real -> string)
    ensures CyclePoints(timestamp, [], Some(1), fmt).stream ==
      [CurrentStateMetric + " " + fmt(1.0) + " " + timestamp + SourceKey + " IS_MOVING=1"]
  {
    OnlyMovingStates();
    MovingTag();
    var empty := CreateAgent(timestamp, [], fmt);
    assert TruthyEntries([]) == [];
    assert empty.stream == [];
    var line := CurrentStateMetric + " " + fmt(1.0) + " " + timestamp + SourceKey + " IS_MOVING=1";
    assert CyclePoints(timestamp, [], Some(1), fmt).stream == empty.stream + [line];
    assert empty.stream + [line] == [line];
  }

  /**
   The cycle with the tag passed as `tags`, as the code evidently intends: the
   state point carries the default source and then the state tokens.
   */
  function CyclePointsIntended(timestamp: string, entries: seq<(string, Value)>, status: Option<int>,
                               fmt: real -> string): (a: Agent)
    ensures a.timestamp == timestamp
    ensures Stamped(a)
    ensures GetStates(status) == [] ==> a == CreateAgent(timestamp, entries, fmt)
    ensures GetStates(status) != [] ==>
      a.stream == CreateAgent(timestamp, entries, fmt).stream
        + [Line(CurrentStateMetric, 1.0, timestamp, DefaultSource, Some(StateTag(GetStates(status))), fmt)]
  {
    var agent := CreateAgent(timestamp, entries, fmt);
    var states := GetStates(status);
    if |states| > 0 then
      var b := AppendToStream(agent, CurrentStateMetric, Num(1.0), None, Some(StateTag(states)), fmt);
      assert b.stream == b.stream[..|agent.stream|] + [b.stream[|agent.stream|]];
      b
    else
      agent
  }
}
