/**
 The Wavefront agent of wavefrontAgent.py: one agent per sampling instant,
 holding the timestamp string fixed at construction and the ordered list of
 Wavefront text lines appended so far.

 Python's `%f` rendering of a number is not modelled; every operation that
 renders a value takes it as the parameter `fmt`.
 */
module Wavefront {

  datatype Option<T> = None | Some(value: T)

  /** A sample as the Python code sees it: `None`, or a number (`True`/`False` are 1 and 0). */
  datatype Value = Absent | Num(r: real)

  /** Python truthiness of a sample: present and non-zero. */
  predicate Truthy(v: Value) {
    v.Num? && v.r != 0.0
  }

  /** `_WAVEFRONT_SOURCE`, used when a point names no source. */
  const DefaultSource: string := "my_vector"

  /** The field every line carries between the value and the source name. */
  const SourceKey: string := " source="

  /** `wavefrontStream` and `datetimeStr` of one agent. */
  datatype Agent = Agent(stream: seq<string>, timestamp: string)

  /** `line` holds `" " + timestamp + " source="` starting at position `k`. */
  predicate StampAt(line: string, k: nat, timestamp: string) {
    var n := |timestamp| + |SourceKey| + 1;
    k + n <= |line| && line[k..k + n] == " " + timestamp + SourceKey
  }

  /** `line` carries `timestamp` as its timestamp field. */
  predicate StampedWith(line: string, timestamp: string) {
    exists k: nat :: k <= |line| && StampAt(line, k, timestamp)
  }

  /** Every line of the agent carries the agent's own timestamp. */
  predicate Stamped(a: Agent) {
    forall i :: 0 <= i < |a.stream| ==> StampedWith(a.stream[i], a.timestamp)
  }

  /** The tags text appended after the source: the tags verbatim, or nothing for `None`. */
  function TagSuffix(tags: Option<string>): string {
    match tags
    case None => ""
    case Some(t) => t
  }

  /** The source a point is written with: the given one unless it is `None` or empty. */
  function EffectiveSource(source: Option<string>): (s: string)
    ensures source.Some? && source.value != "" ==> s == source.value
    ensures source.None? || source.value == "" ==> s == DefaultSource
    ensures s != ""
  {
    if source.None? || source.value == "" then DefaultSource else source.value
  }

  /**
   The line `'%s %f %s source=%s' % (metric, x, timestamp, source)` followed
   by the tags: it starts with the metric and a space, then the rendered
   value, carries the timestamp field right after it, and ends with the
   source and tags.
   */
  function Line(metric: string, x: real, timestamp: string, source: string,
                tags: Option<string>, fmt: real -> string): (line: string)
    ensures |line| == |metric| + 1 + |fmt(x)| + 1 + |timestamp| + |SourceKey| + |source| + |TagSuffix(tags)|
    ensures line[..|metric| + 1] == metric + " "
    ensures line[|metric| + 1..|metric| + 1 + |fmt(x)|] == fmt(x)
    ensures StampAt(line, |metric| + 1 + |fmt(x)|, timestamp)
    ensures StampedWith(line, timestamp)
    ensures line[|line| - |source| - |TagSuffix(tags)|..] == source + TagSuffix(tags)
  {
    var line := metric + " " + fmt(x) + " " + timestamp + SourceKey + source + TagSuffix(tags);
    assert line == (metric + " ") + fmt(x) + (" " + timestamp + SourceKey) + (source + TagSuffix(tags));
    assert StampAt(line, |metric| + 1 + |fmt(x)|, timestamp);
    line
  }

  /** `WavefrontAgent(timestamp)`: an empty stream and a timestamp fixed for the agent's life. */
  function NewAgent(timestamp: string): (a: Agent)
    ensures a.stream == []
    ensures a.timestamp == timestamp
    ensures Stamped(a)
  {
    Agent([], timestamp)
  }

  /**
   `appendToStream(metric, value, source, tags)`: a falsy value leaves the
   agent as it was; a truthy one appends exactly one line at the end.
   */
  function AppendToStream(a: Agent, metric: string, value: Value, source: Option<string>,
                          tags: Option<string>, fmt: real -> string): (b: Agent)
    ensures b.timestamp == a.timestamp
    ensures !Truthy(value) ==> b == a
    ensures Truthy(value) ==> |b.stream| == |a.stream| + 1 && b.stream[..|a.stream|] == a.stream
    ensures Truthy(value) ==>
      b.stream[|a.stream|] == metric + " " + fmt(value.r) + " " + a.timestamp + SourceKey
                              + EffectiveSource(source) + TagSuffix(tags)
    ensures Stamped(a) ==> Stamped(b)
  {
    if Truthy(value) then
      var line := Line(metric, value.r, a.timestamp, EffectiveSource(source), tags, fmt);
      var b := a.(stream := a.stream + [line]);
      assert b.stream[..|a.stream|] == a.stream;
      b
    else
      a
  }

  /** A truthy point appends exactly its `Line` with the effective source. */
  lemma AppendsLine(a: Agent, metric: string, value: Value, source: Option<string>,
                    tags: Option<string>, fmt: real -> string)
    requires Truthy(value)
    ensures AppendToStream(a, metric, value, source, tags, fmt).stream ==
      a.stream + [Line(metric, value.r, a.timestamp, EffectiveSource(source), tags, fmt)]
  {
  }
}
