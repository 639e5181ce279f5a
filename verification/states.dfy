/**
 `getStates` of monitor.py: the robot status word decoded into the names of
 the state flags whose mask bits are set, in table order; and the tag text
 `" NAME=1"` per state that the main loop builds from that list.
 */
module States {
  import opened Bits
  import opened Wavefront
  import opened Text

  /** One `(mask, name)` pair of the status table. */
  datatype Flag = Flag(mask: nat, name: string)

  /** The `checkList` table, in the order the code tests it. */
  const StateFlags: seq<Flag> := [
    Flag(0x1, "IS_MOVING"),
    Flag(0x2, "IS_CARRYING_BLOCK"),
    Flag(0x4, "IS_PICKING_OR_PLACING"),
    Flag(0x8, "IS_PICKED_UP"),
    Flag(0x10, "IS_BUTTON_PRESSED"),
    Flag(0x20, "IS_FALLING"),
    Flag(0x40, "IS_ANIMATING"),
    Flag(0x80, "IS_PATHING"),
    Flag(0x100, "LIFT_IN_POS"),
    Flag(0x200, "HEAD_IN_POS"),
    Flag(0x400, "CALM_POWER_MODE"),
    Flag(0x800, "IS_BATTERY_DISCONNECTED"),
    Flag(0x1000, "IS_ON_CHARGER"),
    Flag(0x2000, "IS_CHARGING"),
    Flag(0x4000, "CLIFF_DETECTED"),
    Flag(0x8000, "ARE_WHEELS_MOVING"),
    Flag(0x10000, "IS_BEING_HELD"),
    Flag(0x20000, "IS_MOTION_DETECTED"),
    Flag(0x40000, "IS_BATTERY_OVERHEATED")
  ]

  /** No two flags of a table share a name. */
  predicate DistinctNames(flags: seq<Flag>) {
    forall i, j :: 0 <= i < j < |flags| ==> flags[i].name != flags[j].name
  }

  /** Index of the first flag called `name`, or `|flags|` when there is none. */
  function Position(flags: seq<Flag>, name: string): (p: nat)
    ensures p <= |flags|
    ensures p < |flags| ==> flags[p].name == name
    ensures forall i :: 0 <= i < p ==> flags[i].name != name
  {
    if |flags| == 0 then 0
    else if flags[0].name == name then 0
    else 1 + Position(flags[1..], name)
  }

  /**
   The names of the flags of `flags` whose mask shares a bit with `status`, in
   table order: at most one name per flag, and none at all for a zero status.
   */
  function Decode(flags: seq<Flag>, status: int): (names: seq<string>)
    ensures |names| <= |flags|
    ensures status == 0 ==> names == []
  {
    if |flags| == 0 then []
    else
      AndZero(flags[0].mask);
      (if And(status, flags[0].mask) != 0 then [flags[0].name] else [])
      + Decode(flags[1..], status)
  }

  /** Every decoded name is the name of some flag of the table. */
  lemma {:induction false} DecodeInTable(flags: seq<Flag>, status: int)
    ensures |Decode(flags, status)| <= |flags|
    ensures forall i :: 0 <= i < |Decode(flags, status)| ==>
      Position(flags, Decode(flags, status)[i]) < |flags|
  {
    if |flags| > 0 {
      var rest := flags[1..];
      var r := Decode(flags, status);
      var r' := Decode(rest, status);
      DecodeInTable(rest, status);
      forall i | 0 <= i < |r| ensures Position(flags, r[i]) < |flags| {
        if r[i] != flags[0].name {
          var i' := if And(status, flags[0].mask) != 0 then i - 1 else i;
          assert r[i] == r'[i'];
        }
      }
    }
  }

  /** Without its first flag a table with distinct names still has distinct names. */
  lemma DistinctTail(flags: seq<Flag>)
    requires |flags| > 0 && DistinctNames(flags)
    ensures DistinctNames(flags[1..])
    ensures forall i :: 0 <= i < |flags| - 1 ==> flags[1..][i].name != flags[0].name
  {
    forall i | 0 <= i < |flags| - 1 ensures flags[1..][i].name != flags[0].name {
      assert flags[1..][i] == flags[i + 1];
    }
  }

  /** A name found in the tail sits one place further in the whole table. */
  lemma PositionTail(flags: seq<Flag>, x: string)
    requires |flags| > 0 && DistinctNames(flags)
    requires Position(flags[1..], x) < |flags| - 1
    ensures x != flags[0].name
    ensures Position(flags, x) == 1 + Position(flags[1..], x)
  {
    var p := Position(flags[1..], x);
    assert flags[1..][p] == flags[p + 1];
  }

  /** With distinct names, a flag's name is decoded exactly when its mask has a bit of the status. */
  lemma {:induction false} DecodeMembership(flags: seq<Flag>, status: int)
    requires DistinctNames(flags)
    ensures forall j :: 0 <= j < |flags| ==>
      (flags[j].name in Decode(flags, status) <==> And(status, flags[j].mask) != 0)
  {
    if |flags| > 0 {
      var rest := flags[1..];
      var r' := Decode(rest, status);
      DistinctTail(flags);
      DecodeMembership(rest, status);
      DecodeInTable(rest, status);
      assert flags[0].name !in r' by {
        forall i | 0 <= i < |r'| ensures r'[i] != flags[0].name {
          PositionTail(flags, r'[i]);
        }
      }
      forall j | 0 < j < |flags|
        ensures flags[j].name in Decode(flags, status) <==> And(status, flags[j].mask) != 0
      {
        assert flags[j] == rest[j - 1];
        assert flags[j].name != flags[0].name;
      }
    }
  }

  /** Names that are in table order after the first flag stay so behind the first flag's name. */
  lemma OrderedCons(flags: seq<Flag>, tail: seq<string>, keepFirst: bool)
    requires |flags| > 0
    requires forall i :: 0 <= i < |tail| ==> Position(flags, tail[i]) == 1 + Position(flags[1..], tail[i])
    requires forall a, b :: 0 <= a < b < |tail| ==>
      Position(flags[1..], tail[a]) < Position(flags[1..], tail[b])
    ensures var r := (if keepFirst then [flags[0].name] else []) + tail;
      forall a, b :: 0 <= a < b < |r| ==> Position(flags, r[a]) < Position(flags, r[b])
  {
    var r := (if keepFirst then [flags[0].name] else []) + tail;
    var d := if keepFirst then 1 else 0;
    assert Position(flags, flags[0].name) == 0;
    forall a, b | 0 <= a < b < |r| ensures Position(flags, r[a]) < Position(flags, r[b]) {
      assert r[b] == tail[b - d];
      if a >= d {
        assert r[a] == tail[a - d];
      }
    }
  }

  /** Decoded names follow the table order strictly, so none repeats. */
  lemma {:induction false} DecodeOrdered(flags: seq<Flag>, status: int)
    requires DistinctNames(flags)
    ensures forall a, b :: 0 <= a < b < |Decode(flags, status)| ==>
      Position(flags, Decode(flags, status)[a]) < Position(flags, Decode(flags, status)[b])
  {
    if |flags| > 0 {
      var rest := flags[1..];
      var r' := Decode(rest, status);
      DistinctTail(flags);
      DecodeOrdered(rest, status);
      DecodeInTable(rest, status);
      forall i | 0 <= i < |r'|
        ensures Position(flags, r'[i]) == 1 + Position(rest, r'[i])
      {
        PositionTail(flags, r'[i]);
      }
      OrderedCons(flags, r', And(status, flags[0].mask) != 0);
    }
  }

  /**
   Length and fourth character of a state name: enough to tell the table's
   names apart. Distinctness of the nineteen names is proved through these
   integer keys because comparing all 171 pairs of strings character by
   character is far more work for the verifier.
   */
  function NameKey(name: string): int {
    if |name| > 3 then |name| * 256 + name[3] as int else |name|
  }

  /** The keys of the table's names, in table order. */
  const StateKeys: seq<int> := [
    2381, 4419, 5456, 3152, 4418, 2630, 3137, 2640, 2900, 2884,
    3917, 5954, 3407, 2883, 3654, 4447, 3394, 4685, 5442]

  /** Each name of the table has the listed key. */
  lemma StateNameKeys()
    ensures |StateKeys| == |StateFlags|
    ensures forall i :: 0 <= i < |StateFlags| ==> NameKey(StateFlags[i].name) == StateKeys[i]
  {
  }

  /** The listed keys are pairwise different. */
  lemma StateKeysDistinct()
    ensures forall i, j :: 0 <= i < j < |StateKeys| ==> StateKeys[i] != StateKeys[j]
  {
  }

  /** The status table names every state once. */
  lemma StateNamesDistinct()
    ensures DistinctNames(StateFlags)
  {
    StateNameKeys();
    StateKeysDistinct();
    forall i, j | 0 <= i < j < |StateFlags| ensures StateFlags[i].name != StateFlags[j].name {
      assert StateKeys[i] != StateKeys[j];
    }
  }

  /** The status table lists its masks in increasing bit value. */
  lemma StateMasksIncrease()
    ensures forall i, j :: 0 <= i < j < |StateFlags| ==> StateFlags[i].mask < StateFlags[j].mask
    ensures forall i :: 0 <= i < |StateFlags| ==> 0 < StateFlags[i].mask <= LowMask
  {
  }

  /**
   `getStates(status)`: nothing for `None`; otherwise the names whose mask bit
   is set, each once, in table order, which is increasing mask order.
   */
  function GetStates(status: Option<int>): (names: seq<string>)
    ensures status.None? ==> names == []
    ensures |names| <= |StateFlags|
    ensures status.Some? ==> forall j :: 0 <= j < |StateFlags| ==>
      (StateFlags[j].name in names <==> And(status.value, StateFlags[j].mask) != 0)
    ensures forall i :: 0 <= i < |names| ==> Position(StateFlags, names[i]) < |StateFlags|
    ensures forall a, b :: 0 <= a < b < |names| ==>
      StateFlags[Position(StateFlags, names[a])].mask < StateFlags[Position(StateFlags, names[b])].mask
  {
    match status
    case None => []
    case Some(s) =>
      StateNamesDistinct();
      StateMasksIncrease();
      DecodeInTable(StateFlags, s);
      DecodeMembership(StateFlags, s);
      DecodeOrdered(StateFlags, s);
      Decode(StateFlags, s)
  }

  /** Flag j of the table is the one-bit mask `2^j`. */
  lemma StateMasksArePowers()
    ensures forall j :: 0 <= j < |StateFlags| ==> StateFlags[j].mask == Pow2(j)
  {
    assert Pow2(4) == 0x10;
    assert Pow2(8) == 0x100;
    assert Pow2(12) == 0x1000;
    assert Pow2(16) == 0x10000;
  }

  /** A state is reported exactly when its own bit of the status is set. */
  lemma GetStatesBits(s: int)
    ensures forall j :: 0 <= j < |StateFlags| ==>
      (StateFlags[j].name in GetStates(Some(s)) <==> Bit(s, j))
  {
    StateMasksArePowers();
    forall j | 0 <= j < |StateFlags|
      ensures StateFlags[j].name in GetStates(Some(s)) <==> Bit(s, j)
    {
      AndPow2(s, j);
    }
  }

  /** A decoded table depends only on the bits its masks can see. */
  lemma {:induction false} DecodeMaskedStatus(flags: seq<Flag>, s: int)
    requires forall i :: 0 <= i < |flags| ==> flags[i].mask <= LowMask
    ensures Decode(flags, s) == Decode(flags, And(s, LowMask))
  {
    if |flags| > 0 {
      AndLowBits(s, flags[0].mask);
      DecodeMaskedStatus(flags[1..], s);
    }
  }

  /** Only the nineteen defined bits matter, and a zero status has no states. */
  lemma GetStatesLowBits(s: int)
    ensures GetStates(Some(s)) == GetStates(Some(And(s, LowMask)))
    ensures GetStates(Some(0)) == []
  {
    StateMasksIncrease();
    DecodeMaskedStatus(StateFlags, s);
  }

  /**
   `' %s=1' % state`: a space, the name, then `=1`; for a name without `'='`
   the first `'='` after the space is the one that closes the name.
   */
  function Token(name: string): (t: string)
    ensures |t| == |name| + 3 && t[0] == ' ' && t[1..|name| + 1] == name && t[|name| + 1..] == "=1"
    ensures (forall c :: 0 <= c < |name| ==> name[c] != '=') ==> IndexOf(t[1..], '=') == |name|
  {
    var t := " " + name + "=1";
    assert t[1..] == name + "=1" + "";
    EqualsAfterName(name, "");
    t
  }

  /** The tag text: one `" NAME=1"` per state, in list order. */
  function StateTag(states: seq<string>): (tag: string)
    ensures |tag| == 0 <==> |states| == 0
    ensures |states| > 0 ==> tag[0] == ' '
  {
    if |states| == 0 then "" else Token(states[0]) + StateTag(states[1..])
  }

  /** The loop `tag += ' %s=1' % state` builds `StateTag` of the list seen so far. */
  lemma {:induction false} StateTagSnoc(states: seq<string>, name: string)
    ensures StateTag(states + [name]) == StateTag(states) + Token(name)
  {
    if |states| == 0 {
      assert states + [name] == [name];
    } else {
      assert (states + [name])[1..] == states[1..] + [name];
      StateTagSnoc(states[1..], name);
    }
  }

  /** The loop of the main cycle that builds the tag from the state list. */
  method BuildTag(states: seq<string>) returns (tag: string)
    ensures tag == StateTag(states)
  {
    tag := "";
    var i := 0;
    while i < |states|
      invariant 0 <= i <= |states|
      invariant tag == StateTag(states[..i])
    {
      StateTagSnoc(states[..i], states[i]);
      assert states[..i + 1] == states[..i] + [states[i]];
      tag := tag + Token(states[i]);
      i := i + 1;
    }
    assert states[..i] == states;
  }

  /** Reads the state names back from a tag text; `None` when the text is not a tag. */
  function ParseStateTag(tag: string): Option<seq<string>>
    decreases |tag|
  {
    if |tag| == 0 then Some([])
    else if tag[0] != ' ' then None
    else
      var k := 1 + IndexOf(tag[1..], '=');
      if k + 2 > |tag| || tag[k..k + 2] != "=1" then None
      else
        match ParseStateTag(tag[k + 2..])
        case None => None
        case Some(rest) => Some([tag[1..k]] + rest)
  }

  /** True when no name contains `'='`. */
  predicate NoEquals(names: seq<string>) {
    forall i, c :: 0 <= i < |names| && 0 <= c < |names[i]| ==> names[i][c] != '='
  }

  /** The first `'='` after a name without one is the one right after the name. */
  lemma EqualsAfterName(n: string, t: string)
    ensures (forall c :: 0 <= c < |n| ==> n[c] != '=') ==> IndexOf(n + "=1" + t, '=') == |n|
  {
    var u := n + "=1" + t;
    if forall c :: 0 <= c < |n| ==> n[c] != '=' {
      assert forall i :: 0 <= i < |n| ==> u[i] == n[i];
      assert u[|n|] == '=';
    }
  }

  /** Reading one token `" NAME=1"` off the front of a tag text. */
  lemma ParseToken(n: string, t: string)
    requires forall c :: 0 <= c < |n| ==> n[c] != '='
    ensures ParseStateTag(Token(n) + t) ==
      match ParseStateTag(t)
      case None => None
      case Some(rest) => Some([n] + rest)
  {
    var tag := Token(n) + t;
    var k := 1 + |n|;
    assert tag[0] == ' ' && |tag| >= k + 2;
    assert IndexOf(tag[1..], '=') == |n| by {
      assert tag[1..] == n + "=1" + t;
      EqualsAfterName(n, t);
    }
    assert tag[k..k + 2] == "=1" && tag[1..k] == n && tag[k + 2..] == t by {
      assert tag == [' '] + n + ['=', '1'] + t;
    }
  }

  /** The names after the first have no `'='` either. */
  lemma NoEqualsTail(names: seq<string>)
    requires |names| > 0 && NoEquals(names)
    ensures NoEquals(names[1..])
    ensures forall c :: 0 <= c < |names[0]| ==> names[0][c] != '='
  {
    var rest := names[1..];
    forall i, c | 0 <= i < |rest| && 0 <= c < |rest[i]| ensures rest[i][c] != '=' {
      assert rest[i] == names[i + 1];
    }
  }

  /** The tag text loses nothing: the state list reads back from it in order. */
  lemma {:induction false} StateTagRoundTrip(states: seq<string>)
    requires NoEquals(states)
    ensures ParseStateTag(StateTag(states)) == Some(states)
  {
    if |states| > 0 {
      var first := states[0];
      var rest := states[1..];
      NoEqualsTail(states);
      assert ParseStateTag(StateTag(rest)) == Some(rest) by {
        StateTagRoundTrip(rest);
      }
      assert StateTag(states) == Token(first) + StateTag(rest);
      ParseToken(first, StateTag(rest));
      assert [first] + rest == states;
    }
  }

  /** A status whose low bit is clear has no bit in common with `1`. */
  lemma {:induction false} DecodeEvenMasks(flags: seq<Flag>)
    requires forall i :: 0 <= i < |flags| ==> flags[i].mask % 2 == 0
    ensures Decode(flags, 1) == []
  {
    if |flags| > 0 {
      AndStep(1, flags[0].mask);
      AndZero(flags[0].mask / 2);
      DecodeEvenMasks(flags[1..]);
    }
  }

  /** Every flag after the first has its low bit clear. */
  lemma LaterFlagsIgnoreLowBit()
    ensures Decode(StateFlags[1..], 1) == []
  {
    assert forall i :: 0 <= i < |StateFlags[1..]| ==> StateFlags[1..][i].mask % 2 == 0;
    DecodeEvenMasks(StateFlags[1..]);
  }

  /** The first flag is the low bit. */
  lemma FirstFlagIsLowBit()
    ensures Decode(StateFlags, 1) == [StateFlags[0].name] + Decode(StateFlags[1..], 1)
  {
    assert And(1, 1) == 1;
  }

  /** A status of `1` is a robot that is only moving. */
  lemma OnlyMovingStates()
    ensures GetStates(Some(1)) == ["IS_MOVING"]
  {
    LaterFlagsIgnoreLowBit();
    FirstFlagIsLowBit();
    assert Decode(StateFlags, 1) == [StateFlags[0].name];
    assert StateFlags[0].name == "IS_MOVING";
  }

  /** The tag text of a robot that is only moving. */
  lemma MovingTag()
    ensures StateTag(["IS_MOVING"]) == " IS_MOVING=1"
  {
    assert ["IS_MOVING"][1..] == [];
  }
}
