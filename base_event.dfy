/** gd::BaseEvent: the node of the event tree from which every concrete event
    derives. The base class carries the common state (type, disabled flag,
    the editor's folded flag and the profiler's time counter) and answers
    every capability query with a fixed "nothing here" default. */
module BaseEvents {

  /** A parameter expression of an instruction, kept as its text. */
  datatype Expression = Expression(plainString: string)

  /** A condition or an action: its type, its ordered parameters and, for a
      condition, whether it is inverted. */
  datatype Instruction = Instruction(instructionType: string, parameters: seq<Expression>, inverted: bool)

  /** A snapshot of the state an event carries. */
  datatype EventFields = EventFields(
    eventType: string,
    disabled: bool,
    folded: bool,
    totalTimeDuringLastSession: nat)

  class BaseEvent {
    /** Whether the editor shows the event collapsed; kept when the event is saved. */
    var folded: bool
    /** Time spent in the event during the last run, written by the profiler. */
    var totalTimeDuringLastSession: nat
    /** Set when the user switches the event off; code generation then skips it. */
    var disabled: bool
    /** The event's type name; `SetType` replaces it. */
    var eventType: string

    function Fields(): EventFields
      reads this
    {
      EventFields(eventType, disabled, folded, totalTimeDuringLastSession)
    }

    /** An event holding the given state (what the copy made by Clone and the
        initialisation done by a concrete event both amount to). */
    constructor (eventType: string, disabled: bool, folded: bool, totalTimeDuringLastSession: nat)
      ensures Fields() == EventFields(eventType, disabled, folded, totalTimeDuringLastSession)
    {
      this.eventType := eventType;
      this.disabled := disabled;
      this.folded := folded;
      this.totalTimeDuringLastSession := totalTimeDuringLastSession;
    }

    /** A new event, distinct from this one, holding the same state. */
    method Clone() returns (c: BaseEvent)
      ensures fresh(c)
      ensures c.Fields() == Fields()
    {
      c := new BaseEvent(eventType, disabled, folded, totalTimeDuringLastSession);
    }

    // Capability queries: a base event is inert.

    function IsExecutable(): bool {
      false
    }

    function CanHaveSubEvents(): bool {
      false
    }

    /** The shared empty list a base event hands out for its sub-events. */
    function GetSubEvents(): seq<BaseEvent> {
      []
    }

    function GetAllConditionsVectors(): seq<seq<Instruction>> {
      []
    }

    function GetAllActionsVectors(): seq<seq<Instruction>> {
      []
    }

    function GetAllExpressions(): seq<Expression> {
      []
    }

    function GenerateEventCode(): string {
      ""
    }

    /** The pre-compilation hook. The base version is a no-op: the list comes
        back as given, and the method has no modifies clause, so the event
        stays as it was. */
    method Preprocess(eventList: seq<BaseEvent>, indexOfTheEventInThisList: nat)
      returns (newEventList: seq<BaseEvent>)
      ensures newEventList == eventList
    {
      newEventList := eventList;
    }

    // Common properties, shared by every event.

    function GetType(): string
      reads this
    {
      eventType
    }

    method SetType(eventType: string)
      modifies this
      ensures GetType() == eventType
      ensures Fields() == old(Fields()).(eventType := eventType)
    {
      this.eventType := eventType;
    }

    /** Disables the event, or enables it again with `disable := false`. */
    method SetDisabled(disable: bool := true)
      modifies this
      ensures IsDisabled() == disable
      ensures Fields() == old(Fields()).(disabled := disable)
    {
      disabled := disable;
    }

    function IsDisabled(): bool
      reads this
    {
      disabled
    }
  }

  /** The base class's fixed answers to the capability queries: not
      executable, no sub-events, no condition or action lists, no
      expressions, and no generated code. */
  lemma BaseEventIsInert(e: BaseEvent)
    ensures !e.IsExecutable() && !e.CanHaveSubEvents()
    ensures e.GetSubEvents() == []
    ensures e.GetAllConditionsVectors() == [] && e.GetAllActionsVectors() == []
    ensures e.GetAllExpressions() == []
    ensures e.GenerateEventCode() == ""
  {
  }

  /** Calling SetDisabled without an argument disables the event. */
  method Disable(e: BaseEvent)
    modifies e
    ensures e.IsDisabled()
    ensures e.Fields() == old(e.Fields()).(disabled := true)
  {
    e.SetDisabled();
  }

  /** A clone is independent of its source: changing the clone's type and
      disabled flag leaves the source as it was. */
  method CloneThenEdit(e: BaseEvent, newType: string, disable: bool) returns (c: BaseEvent)
    ensures fresh(c)
    ensures c.Fields() == old(e.Fields()).(eventType := newType, disabled := disable)
    ensures e.Fields() == old(e.Fields())
  {
    c := e.Clone();
    c.SetType(newType);
    c.SetDisabled(disable);
  }
}
