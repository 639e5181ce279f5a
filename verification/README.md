# Vector telemetry relay: Wavefront buffer, throttled flush and state decoding

This project models the two pure cores of a relay that polls an Anki Vector
robot and forwards its readings to a Wavefront proxy as Wavefront text lines.

1. The Wavefront agent (`WavefrontAgent` in wavefrontAgent.py). It holds one
   timestamp string, fixed when the agent is built, and an ordered list of
   lines. `appendToStream` renders a `(metric, value, source, tags)` point as
   `metric value timestamp source=<source><tags>`. It silently drops falsy
   values and uses `my_vector` when no source is given. `sendWithThrottle`
   walks the list in steps of 100 lines. Each step hands one payload to
   `netcat` and then sleeps.
2. The cycle helpers of monitor.py. `getStates` decodes the 19-bit status
   word into the names of the set flags, in table order. `createWavefrontAgent`
   folds the sample mapping into a fresh agent. The main loop then appends a
   synthetic `vector.currentstate` point whose tag text is `" NAME=1"` for each
   active state.

Modules, one per component:

- `Text` (text.dfy): Python's `'\n'.join`, newline-terminated text, concatenation
  of payloads, and the line splitter a receiver applies.
- `Wavefront` (wavefront.dfy): values, the agent, `NewAgent` and `AppendToStream`.
- `Throttle` (throttle.dfy): payloads and the `SendWithThrottle` loop, which
  returns a trace of `Send(payload, delivered)` and `Sleep` events.
- `Bits` (bits.dfy): Python's `&` between an integer status and a mask.
- `States` (states.dfy): the flag table, `GetStates`, and the state tag with its parser.
- `Monitor` (monitor.dfy): `CreateAgent` and the currentstate step of one polling cycle.

Modelling choices:

- A value is `Absent` (Python `None`) or `Num(r)` with `r` a finite real. Python
  `True` and `False` are `Num(1.0)` and `Num(0.0)`, and ints and floats are both
  `Num`. A value is truthy when it is `Num(r)` with `r != 0`.
- `%f` rendering is the parameter `fmt: real -> string`.
- The timestamp is an opaque string argument. It stands for
  `datetime.now().strftime('%s')`.
- `netcat` is an oracle `netcat: nat -> bool`, giving the outcome of the i-th
  send. Sleeps are `Sleep` events in the trace.
- The mapping handed to `createWavefrontAgent` is a sequence of (key, value)
  pairs. A Python dict iterates in insertion order.
- The status is `Option<int>`. `Bits.And` is Python's `&` for any integer, negative
  ones included, against a non-negative mask. `Bits.AndBit` proves this bit by
  bit, with bit k of an integer read as Python reads it, `(a // 2**k) % 2`.

Where the code departs from what it evidently intends, the model follows the
code, and a corrected definition sits beside it (see "## Findings"):

- When 100 or fewer lines remain, the payload is the whole stream. The `else`
  branch slices `[start:start + 100]` and `start` advances by 100, so the
  remaining slice was meant. As written, streams longer than 100 lines are not
  delivered once each.
- In the currentstate call the tag is the third positional argument, so it
  becomes the `source`. Each token carries its own leading space, which suits
  the verbatim `tags` suffix, so `tags` was meant.

Two consequences of the code that a reader might not expect, both modelled as
written:

- Values of 0 are dropped like `None`, by Python truthiness.
- State names appear in table order (increasing mask value), so `IS_ON_CHARGER`
  (0x1000) comes before `IS_CHARGING` (0x2000).

## Model

| member | source | states |
|---|---|---|
| Wavefront.NewAgent | wavefrontAgent.py:95-97 | a new agent has an empty stream and keeps the given timestamp; its (empty) stream is trivially stamped |
| Wavefront.EffectiveSource | wavefrontAgent.py:109-110 | a given non-empty source is used verbatim; `None` or the empty string yields `my_vector`; the result is never empty |
| Wavefront.AppendToStream | wavefrontAgent.py:108-119 | a falsy value (absent or zero) leaves the agent unchanged; a truthy one appends exactly one line at the end, keeps every earlier line and the timestamp, and the new line is metric, rendered value, timestamp, ` source=`, effective source, then the tags verbatim if present; a stream whose lines all carry the agent's timestamp keeps that property |
| Wavefront.Line | wavefrontAgent.py:111-116 | the line starts with the metric and a space, then holds the `%f` rendering of the value, then `" " + timestamp + " source="`, and ends with the source followed by the tags; its length is exactly that of these fields, so the fields make up the whole line |
| Throttle.SendCount | wavefrontAgent.py:76-93 | the number of loop rounds is the ceiling of n/100: at least n/100, and one fewer round would not reach n |
| Throttle.SendWithThrottle | wavefrontAgent.py:76-93 | the trace has exactly 2·ceil(n/100) events, none for an empty stream; round i sends `Payload(stream, 100·i)` (its own 100-line slice, or the whole stream in the final round) with the oracle's i-th outcome and is followed by exactly one sleep, so a failed send never stops later rounds |
| Throttle.Payload | wavefrontAgent.py:80-85 | a round with more than 100 lines left sends its own 100-line slice, newline-terminated; a round with 100 or fewer left sends the entire stream, newline-terminated |
| Throttle.Payloads | wavefrontAgent.py:79-93 | there is one payload per loop round, ceil(n/100) in all, and the last one is the entire stream, newline-terminated |
| Throttle.EarlyRound | wavefrontAgent.py:82-85 | round i before the last sends lines 100·i to 100·i+99, newline-terminated |
| Throttle.EarlyRoundsText | wavefrontAgent.py:80-85 | the first j non-final rounds together send exactly the first 100·j lines, each newline-terminated |
| Throttle.WireTextAsWritten | wavefrontAgent.py:79-93 | over a whole flush the proxy receives the lines before the last chunk and then the whole stream again |
| Throttle.ResendsLinesAsWritten | wavefrontAgent.py:80-81 | for more than 100 newline-free lines, the received lines are the leading chunks followed by the entire stream, strictly more lines than the stream holds |
| Throttle.FixedPayload | wavefrontAgent.py:80-83 | the corrected payload is the round's own slice: the remaining lines when 100 or fewer are left, else the next 100, newline-terminated |
| Throttle.FixedDeliversStreamOnce | wavefrontAgent.py:80-83 | with slices as payloads, the whole flush's text is the stream newline-terminated: every line once, in order, for any stream length |
| Throttle.FixedReadsBackStream | wavefrontAgent.py:80-85 | for newline-free lines, a receiver splitting the corrected flush's text reads back exactly the stream |
| Throttle.SmallStreamsAgree | wavefrontAgent.py:80-83 | for up to 100 lines the code's payloads equal the sliced ones |
| Text.Join | wavefrontAgent.py:81-85 | `'\n'.join` of a non-empty list, followed by the trailing newline of line 85, is the newline-terminated text of the lines |
| Text.SplitTerminated | wavefrontAgent.py:81-85 | newline-terminated text of newline-free lines splits back into exactly those lines |
| Bits.And | monitor.py:62 | `status & mask` is a non-negative value no larger than the mask |
| Bits.AndBit | monitor.py:62 | bit k of `status & mask` is set exactly when bit k is set in both the status and the mask (bits of a negative status as in two's complement), so the result keeps exactly the status bits the mask has |
| Bits.AndPow2 | monitor.py:62 | a one-bit mask `2^k` gives `2^k` when bit k of the status is set and 0 otherwise |
| Bits.AndLowBits | monitor.py:62 | a mask within `0x7FFFF` sees the same bits of `s` as of `s & 0x7FFFF` |
| States.Decode | monitor.py:61-63 | the decoded list has at most one name per flag, and a zero status decodes to no names |
| States.StateNamesDistinct | monitor.py:33-51 | the nineteen table names are pairwise different |
| States.StateMasksIncrease | monitor.py:33-58 | the table lists its masks in strictly increasing order, all positive and within `0x7FFFF` |
| States.DecodeMembership | monitor.py:61-63 | for a table with distinct names, a flag's name is in the decoded list iff its mask shares a bit with the status |
| States.DecodeOrdered | monitor.py:61-63 | decoded names occur in strictly increasing table position, so none repeats |
| States.GetStates | monitor.py:60-64 | `None` gives the empty list; at most 19 names; a table name is present iff its mask bit is set; names are table names, in strictly increasing mask order |
| States.StateMasksArePowers | monitor.py:33-58 | table entry j is the one-bit mask `2^j`, for every j from 0 to 18 |
| States.GetStatesBits | monitor.py:60-64 | the j-th table name is reported exactly when bit j of the status is set |
| States.GetStatesLowBits | monitor.py:33-63 | the result depends only on `status & 0x7FFFF`, and status 0 gives the empty list |
| States.Token | monitor.py:170 | a token is a space, the state name, then `=1`; for a name without `=` the first `=` after the space closes the name |
| States.StateTag | monitor.py:168-170 | the tag text is empty iff the state list is empty, and otherwise starts with a space |
| States.StateTagSnoc | monitor.py:169-170 | appending a state to the list appends its `" NAME=1"` token to the tag text |
| States.BuildTag | monitor.py:168-170 | the loop `tag += ' %s=1' % state` yields the tag text of the whole list |
| States.StateTagRoundTrip | monitor.py:168-170 | for names without `=`, the tag text parses back into the same state list in the same order |
| Monitor.TruthyEntries | monitor.py:76-77 | the kept entries are no more than the mapping's and all have truthy values |
| Monitor.TruthyEntriesMembers | monitor.py:76-77 | an entry is kept iff it is in the mapping and its value is truthy |
| Monitor.AppendAll | monitor.py:76-77 | the fold keeps the timestamp and every existing line in place, adds at most one line per entry, and keeps every line stamped with the timestamp |
| Monitor.AppendAllLines | monitor.py:76-77 | appending each entry with no source and no tags adds, after the existing lines, one default-source line per truthy entry, in mapping order, and keeps the timestamp |
| Monitor.CreateAgent | monitor.py:74-78 | the new agent's stream is one `my_vector` line per truthy entry, in mapping order, no longer than the mapping, all stamped with its timestamp |
| Monitor.CyclePoints | monitor.py:164-171 | with no active state the agent is exactly the mapping's agent; otherwise one line is appended after all mapping lines: `vector.currentstate`, the rendering of 1, the timestamp, ` source=`, then the tag text, with no tags suffix |
| Monitor.TagAsSourceLine | wavefrontAgent.py:109-116 | a line with the tag in the source slot equals the line of a point with an empty source and the tag as tags, and differs from the default-source line |
| Monitor.CurrentStateSourceAsWritten | monitor.py:171 | as written, the state line equals that of a point with empty source and the tag as tags, never the default-source line |
| States.OnlyMovingStates | monitor.py:33-63 | status 1 decodes to exactly `["IS_MOVING"]` |
| Monitor.MovingRobotAsWritten | monitor.py:165-171 | for status 1 and an empty mapping the stream is the single line `vector.currentstate <fmt(1)> <ts> source= IS_MOVING=1` |
| Monitor.CyclePointsIntended | monitor.py:164-171 | with the tag passed as `tags`, the state line carries the default source followed by the tag; otherwise as in the cycle |

## Left out

- `main()`'s polling loop, robot connect and disconnect, the sensor reads that fill the mapping (monitor.py:92-163, 172-183) and its exception handling: these are I/O and orchestration. monitor.py:103 calls `time.sleep()` with no argument, which would raise, but it lies in this excluded loop.
- monitor.py:167 stores `vector.currentstate` in the mapping after the agent is built, so it has no effect on the stream. It is not modelled.
- `netcat`'s socket work, meaning connect, `sendall`, shutdown and close to 127.0.0.1:2878: an oracle gives its boolean result.
- The 0.5 s duration of each sleep and all `print` logging: a sleep is an event without a duration, and logging is not observable in the model.
- `datetime.now()` and `strftime('%s')`: they depend on the clock and the platform. The timestamp is an opaque string.
- `%f` float formatting: it is the uninterpreted parameter `fmt`.
- `getDistanceTravelled`: floating-point `sqrt`.
- `is_comparable`: it belongs to the robot SDK.
- Wavefront.AppendToStream: values are modelled as finite reals, so NaN and ±inf points are not covered. Python treats them as truthy and `%f` renders them as `nan`/`inf`. Also not covered is the OverflowError that `%f` raises for an int too large for a float, which would propagate out of `appendToStream`. The rendering parameter `fmt` is total.

## Findings

| source | as written | input that shows it | evidently intended | confidence | as-written member | corrected member |
|---|---|---|---|---|---|---|
| wavefrontAgent.py:80-81 | with 100 or fewer lines left, the payload is `'\n'.join(self.wavefrontStream)`, the whole stream | a stream of 101 lines: round 2 sends all 101 lines, so lines 1-100 reach the proxy twice | `'\n'.join(self.wavefrontStream[start:])`, the remaining slice | high; not executed | Throttle.ResendsLinesAsWritten | Throttle.FixedDeliversStreamOnce |
| monitor.py:171 | `appendToStream('vector.currentstate', 1, tag)` puts the tag in the `source` parameter | status 1: the line ends in `source= IS_MOVING=1`, a point with an empty source | `appendToStream('vector.currentstate', 1, tags=tag)`, giving `source=my_vector IS_MOVING=1` | medium; not executed | Monitor.MovingRobotAsWritten | Monitor.CyclePointsIntended |

The model of the code keeps both as-written behaviours: `SendWithThrottle` and
`CyclePoints` describe what the program does. The corrected definitions are
`FixedPayload`/`FixedPayloads` and `CyclePointsIntended`. `GetStates`,
`CreateAgent` and the tag functions do not depend on either choice.
