/**
 Text helpers shared by the Wavefront agent and the throttled sender:
 Python's `'\n'.join(...)`, newline-terminated text, concatenation of a
 sequence of payloads, and the line splitter a receiver of that text uses.
 */
module Text {

  /** True when no string of `lines` contains a newline character. */
  predicate NoNewlines(lines: seq<string>) {
    forall i, k :: 0 <= i < |lines| && 0 <= k < |lines[i]| ==> lines[i][k] != '\n'
  }

  /**
   Python's `'\n'.join(lines)`: newline between lines, none after the last,
   so one more newline gives the newline-terminated text of a non-empty list.
   */
  function Join(lines: seq<string>): (s: string)
    ensures |lines| > 0 ==> s + "\n" == Terminated(lines)
  {
    if |lines| == 0 then ""
    else if |lines| == 1 then
      assert Terminated(lines[1..]) == "";
      lines[0]
    else lines[0] + "\n" + Join(lines[1..])
  }

  /** Every line followed by its own newline: the text a line-oriented receiver reads. */
  function Terminated(lines: seq<string>): string {
    if |lines| == 0 then "" else lines[0] + "\n" + Terminated(lines[1..])
  }

  /** Concatenation of a sequence of payloads, in order. */
  function Flatten(parts: seq<string>): string {
    if |parts| == 0 then "" else Flatten(parts[..|parts| - 1]) + parts[|parts| - 1]
  }

  /** Index of the first `c` in `s`, or `|s|` when there is none. */
  function IndexOf(s: string, c: char): (k: nat)
    ensures k <= |s|
    ensures k < |s| ==> s[k] == c
    ensures forall i :: 0 <= i < k ==> s[i] != c
  {
    if |s| == 0 then 0
    else if s[0] == c then 0
    else 1 + IndexOf(s[1..], c)
  }

  /** Splits text into its lines; a trailing piece without a newline is a line of its own. */
  function SplitLines(s: string): seq<string>
    decreases |s|
  {
    if |s| == 0 then []
    else
      var k := IndexOf(s, '\n');
      if k == |s| then [s] else [s[..k]] + SplitLines(s[k + 1..])
  }

  /** Terminating a concatenation is concatenating the terminated parts. */
  lemma {:induction false} TerminatedAppend(a: seq<string>, b: seq<string>)
    ensures Terminated(a + b) == Terminated(a) + Terminated(b)
  {
    if |a| == 0 {
      assert a + b == b;
    } else {
      assert (a + b)[1..] == a[1..] + b;
      TerminatedAppend(a[1..], b);
    }
  }

  /** Terminating a prefix of `lines` and then the next slice terminates the longer prefix. */
  lemma TerminatedExtend(lines: seq<string>, i: nat, j: nat)
    requires i <= j <= |lines|
    ensures Terminated(lines[..j]) == Terminated(lines[..i]) + Terminated(lines[i..j])
  {
    assert lines[..i] + lines[i..j] == lines[..j];
    TerminatedAppend(lines[..i], lines[i..j]);
  }

  /** The last part is appended after the flattened others. */
  lemma FlattenSnoc(parts: seq<string>)
    requires |parts| > 0
    ensures Flatten(parts) == Flatten(parts[..|parts| - 1]) + parts[|parts| - 1]
  {
  }

  /** Splitting newline-terminated text gives back exactly the lines that were terminated. */
  lemma {:induction false} SplitTerminated(lines: seq<string>)
    requires NoNewlines(lines)
    ensures SplitLines(Terminated(lines)) == lines
  {
    if |lines| > 0 {
      var l := lines[0];
      var rest := lines[1..];
      var s := Terminated(lines);
      assert s == l + "\n" + Terminated(rest);
      assert s[|l|] == '\n';
      assert forall i :: 0 <= i < |l| ==> s[i] == l[i] && l[i] != '\n';
      assert IndexOf(s, '\n') == |l|;
      assert s[..|l|] == l;
      assert s[|l| + 1..] == Terminated(rest);
      assert NoNewlines(rest) by {
        forall i, k | 0 <= i < |rest| && 0 <= k < |rest[i]|
          ensures rest[i][k] != '\n'
        {
          assert rest[i] == lines[i + 1];
        }
      }
      SplitTerminated(rest);
    }
  }
}
