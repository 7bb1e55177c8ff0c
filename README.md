# GDevelop event node: `gd::BaseEvent` and its code-generation template

This project models the base class of GDevelop's (Game Develop's) event tree,
`gd::BaseEvent`, declared in `Core/GDCore/Events/Event.h`. It also models the
pattern that the same header documents for `GenerateEventCode`.

- `BaseEvents.BaseEvent` is a class with four fields: the event type, the
  `disabled` flag, the editor's `folded` flag and the profiler's
  `totalTimeDuringLastSession` counter.
  - `SetType` and `SetDisabled` update their own field in place and leave the
    other three alone. `SetDisabled` keeps the source's default argument `true`.
  - `Clone` allocates a new event with the same state.
  - The capability queries return the base class's fixed answers: not
    executable, no sub-events, no condition or action lists, no expressions,
    empty generated code. `Preprocess` is a no-op.
- `EventCodeTemplate` models the documented code-generation pattern.
  - The external events code generator produces the code for the conditions,
    the actions and the sub-events. Here each of those is an opaque string.
  - The guard `condition0IsTrue && condition1IsTrue && ...` is built in a loop,
    and the method `GenerateEventCode` appends the pieces in the source's
    order.
  - The lemmas cover the guard (its order, its separators, and that it is empty
    exactly when there are no conditions) and the layout of the generated code.
  - They also cover its nesting: with well-nested generator output, the block
    opened right after the `if` line stays open until the final `}`; the
    actions start right inside it, one block deep; the sub-events sit in a
    second block, two blocks deep, that stays open over all of their code.
- `Text` holds the helpers the template needs:
  - the decimal rendering of the condition index, with a parse-back
    round trip;
  - joining strings with a separator;
  - character counting and brace balance.

The template calls `ToString` from GDCore's common tools, which is not part of
this model. It is modelled as the usual decimal rendering of an unsigned
integer.

The event type can be changed after creation through the public `SetType`
(Event.h:178), and the model keeps that setter.

## Model

| member | source | states |
|---|---|---|
| `BaseEvents.BaseEvent.constructor` | Core/GDCore/Events/Event.h:44 | A new event holds exactly the given type, disabled flag, folded flag and profiling time. |
| `BaseEvents.BaseEvent.Clone` | Core/GDCore/Events/Event.h:47-56 | Returns a newly allocated event, distinct from the source, whose four fields equal the source's. |
| `BaseEvents.CloneThenEdit` | Core/GDCore/Events/Event.h:47-56 | Changing a clone's type and disabled flag gives the clone the new values and leaves the source event's state exactly as it was. |
| `BaseEvents.BaseEvent.SetType` | Core/GDCore/Events/Event.h:170-178 | Afterwards `GetType()` returns the new type; disabled, folded and profiling time are unchanged. |
| `BaseEvents.BaseEvent.SetDisabled` | Core/GDCore/Events/Event.h:180-188 | Afterwards `IsDisabled()` returns the argument, which defaults to `true`; type, folded and profiling time are unchanged. |
| `BaseEvents.Disable` | Core/GDCore/Events/Event.h:183 | Calling `SetDisabled` without an argument disables the event and changes nothing else. |
| `BaseEvents.BaseEventIsInert` | Core/GDCore/Events/Event.h:63-140 | A base event is not executable and cannot have sub-events. It exposes an empty sub-event list, no condition or action vectors and no expressions, and it generates the empty string. |
| `BaseEvents.BaseEvent.Preprocess` | Core/GDCore/Events/Event.h:142-145 | The event list comes back unchanged, and the event itself is not modified. |
| `EventCodeTemplate.GenerateEventCode` | Core/GDCore/Events/Event.h:114-137 | The step-by-step appends, with the guard built in a loop, produce exactly `TemplateCode`. That is: the conditions' code, the `if` line when there are conditions, then the actions' block, which holds the sub-events' block when there are sub-events. |
| `EventCodeTemplate.ConditionFlags` | Core/GDCore/Events/Event.h:119-123 | There are n flags, and entry i is the flag of condition i. |
| `EventCodeTemplate.GuardIsJoin` | Core/GDCore/Events/Event.h:118-123 | The guard the loop builds equals the flags of conditions 0 .. n-1, in index order, joined by `" && "`. |
| `EventCodeTemplate.GuardEmpty` | Core/GDCore/Events/Event.h:118-125 | The guard is empty if and only if there are no conditions, so the `if` line is emitted if and only if n > 0. |
| `EventCodeTemplate.GuardSeparators` | Core/GDCore/Events/Event.h:119-123 | For n > 0 conditions the guard contains 2(n-1) `&` characters, i.e. n-1 separators `" && "`. |
| `EventCodeTemplate.GuardInOrder` | Core/GDCore/Events/Event.h:119-123 | For 0 < m <= n, the guard for m conditions is a prefix of the guard for n conditions, and it ends with the flag of condition m-1: the flags appear in index order. |
| `EventCodeTemplate.ConditionFlagInjective` | Core/GDCore/Events/Event.h:122 | Distinct conditions get distinct result-flag names. |
| `EventCodeTemplate.ConditionFlagChars` | Core/GDCore/Events/Event.h:122 | A flag name contains no `&` and no braces. |
| `EventCodeTemplate.GuardBraceFree` | Core/GDCore/Events/Event.h:118-123 | The guard contains no braces, so it never changes the block nesting. |
| `EventCodeTemplate.IfLineThenBlock` | Core/GDCore/Events/Event.h:125-126 | When the `if` line is followed by the block, the text starts with `if (` if and only if there is at least one condition. |
| `EventCodeTemplate.TemplateLayout` | Core/GDCore/Events/Event.h:114-137 | The output starts with the conditions' code. The text right after it is `if (` if and only if there are conditions. The output ends with the closing `}\n`. |
| `EventCodeTemplate.TemplateBlocks` | Core/GDCore/Events/Event.h:126-135 | Apart from the braces inside the generator's code, the template opens one block, plus a second one if and only if there are sub-events. |
| `EventCodeTemplate.SubEventsBlockWellNested` | Core/GDCore/Events/Event.h:128-133 | The sub-events' block is well nested whenever the sub-events' code is. |
| `EventCodeTemplate.ActionsBlockWellNested` | Core/GDCore/Events/Event.h:126-135 | The actions' block, including the optional sub-events' block, is well nested whenever the generator's code is. |
| `EventCodeTemplate.ActionsDepth` | Core/GDCore/Events/Event.h:126-127 | The actions' code sits at the fixed position right after the `{\n` that follows the conditions' code and the `if` line (`GuardedBlockStart` + 2), and exactly one block is open there. |
| `EventCodeTemplate.SubEventsDepth` | Core/GDCore/Events/Event.h:128-133 | With sub-events, their code sits at the fixed position right after the actions' code and the `\n{\n` that opens their block, and exactly two blocks are open there. |
| `EventCodeTemplate.GuardedBlockStaysOpen` | Core/GDCore/Events/Event.h:126-135 | A `{` sits right after the conditions' code and the `if` line. From there until just before the final `}\n`, at least one block is open, so the actions and the sub-events are all inside the block the `if` guards. |
| `EventCodeTemplate.SubEventsBlockStaysOpen` | Core/GDCore/Events/Event.h:128-133 | With sub-events, a `{` sits right after the actions' code and a newline. From there to the end of the sub-events' code, at least two blocks are open. |
| `EventCodeTemplate.TemplateNesting` | Core/GDCore/Events/Event.h:114-137 | With well-nested generator output, the whole output is well nested. A `{` sits right after the `if` line, and at least one block stays open from there until just before the final `}\n`. The actions start right inside that block, one block deep. With sub-events, their code sits two blocks deep inside a second block, which stays open over all of it. |
| `EventCodeTemplate.OneConditionIfLine` | Core/GDCore/Events/Event.h:119-125 | With a single condition, the `if` line is exactly `if (condition0IsTrue)` followed by a newline. |
| `EventCodeTemplate.OneConditionWithSubEvent` | Core/GDCore/Events/Event.h:114-137 | With one condition and sub-events, the output is the conditions' code, then `if (condition0IsTrue)`, then a block with the actions followed by a nested block with the sub-events. |
| `Text.NatToString` | Core/GDCore/Events/Event.h:122 | The index rendering is a non-empty string of decimal digits, and it starts with `0` only for 0 (no leading zeros). |
| `Text.ParseNatToString` | Core/GDCore/Events/Event.h:122 | Reading the decimal rendering back gives the original index. |
| `Text.NatToStringInjective` | Core/GDCore/Events/Event.h:122 | Different indices have different renderings. |
| `Text.JoinWithAppend` | Core/GDCore/Events/Event.h:119-123 | Appending a separator and a part to a non-empty join equals the join of the extended list. This is the step the accumulating loop takes. |

## Left out

- `Render`, `EditEvent` and `EditEventReturnType` (Event.h:213-236) are wxWidgets drawing and editor-dialog code.
- `GetRenderedHeight`, `renderedHeight` and `eventHeightNeedUpdate` (Event.h:220, 241, 248) are the editor's mutable rendering cache.
- `SaveToXml` and `LoadFromXml` (Event.h:156-161) are TinyXML serialisation, i.e. I/O over a library outside the model.
- `CloneRememberingOriginalEvent` and `CloneVectorOfEvents` (Event.h:264, 272) are only declared in this header; their bodies are in Event.cpp, which is not part of this model.
- `originalEvent` (Event.h:243) is a Boost weak pointer used for profiling; its lifetime semantics rest on Boost and are not modelled.
- `percentDuringLastSession` (Event.h:245) is a float written by the runtime profiler.
- The destructor, and the default constructor's initial field values, are defined in Event.cpp, which is not part of this model. The model's constructor takes the initial values as arguments.
- `GenerateEventCode` takes a `Game`, a `Scene`, the code generator and its context, and `Preprocess` takes a `Game` and a `Scene` (Event.h:140, 145). These collaborators are dropped from the signatures.
- `Preprocess` receives its event list by non-const reference, so an override could rewrite it in place. The model returns the list as a value instead. The base version is a no-op, so no behaviour is lost.
- The template's calls to the events code generator (`GenerateConditionsListCode`, `GenerateActionsListCode`, `GenerateEventsListCode`) become opaque string parameters. Their effects on the generation context are not modelled, and neither is the order in which those effects happen.
- `GetSubEvents` returns the shared static `badSubEvents` vector by reference (Event.h:76-81, 254). It is modelled as an empty sequence value, and its const and non-const overloads are one function.
- `GetAllConditionsVectors`, `GetAllActionsVectors` and `GetAllExpressions` return pointers that allow rewriting in place. The model returns (empty) values, so aliasing is not captured.
- `Instruction` and `Expression` are declared in Instruction.h, which is not part of this model. Here they are small datatypes used only as element types.
- Skipping disabled events during code generation is the code generator's job, and that code is not in this header.
- `totalTimeDuringLastSession` is an `unsigned long`. The model uses an unbounded `nat`, because the core only stores the value.
- `EventCodeTemplate.GenerateEventCode`: the template's `unsigned int` loop counter would wrap for 2^32 or more conditions; the model's counter is unbounded.
