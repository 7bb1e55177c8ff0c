/** The code-generation pattern that concrete events follow in
    GenerateEventCode: the code evaluating the conditions, then an `if` whose
    guard is the conjunction of the per-condition result flags (only when
    there are conditions), then one block holding the actions and, when the
    event has sub-events, a nested block holding the sub-events' code.

    The code for the condition list, the action list and the sub-event list is
    produced by the external events code generator; here each is an opaque
    string parameter. */
module EventCodeTemplate {
  import opened Text

  /** The name of the flag holding the result of condition i. */
  function ConditionFlag(i: nat): string {
    "condition" + NatToString(i) + "IsTrue"
  }

  /** The flags of conditions 0 .. n - 1, in index order. */
  function ConditionFlags(n: nat): (flags: seq<string>)
    ensures |flags| == n
    ensures forall i :: 0 <= i < n ==> flags[i] == ConditionFlag(i)
  {
    if n == 0 then [] else ConditionFlags(n - 1) + [ConditionFlag(n - 1)]
  }

  /** The `if` guard for n conditions, built flag by flag (GuardIsJoin: every
      flag, in index order, joined by " && "). */
  function Guard(n: nat): string {
    if n == 0 then ""
    else if n == 1 then ConditionFlag(0)
    else Guard(n - 1) + " && " + ConditionFlag(n - 1)
  }

  /** The `if` line, present only when there is at least one condition. */
  function IfLine(conditionCount: nat): string {
    if conditionCount > 0 then "if (" + Guard(conditionCount) + ")\n" else ""
  }

  /** The nested block holding the sub-events' code, only when there are sub-events. */
  function SubEventsBlock(hasSubEvents: bool, subEventsCode: string): string {
    if hasSubEvents then "\n{\n" + subEventsCode + "}\n" else ""
  }

  /** The block the `if` guards: the actions, then the sub-events' block. */
  function ActionsBlock(actionsCode: string, hasSubEvents: bool, subEventsCode: string): string {
    "{\n" + actionsCode + SubEventsBlock(hasSubEvents, subEventsCode) + "}\n"
  }

  /** The code an event following the template generates. */
  function TemplateCode(conditionsCode: string, conditionCount: nat, actionsCode: string,
                        hasSubEvents: bool, subEventsCode: string): string
  {
    conditionsCode + IfLine(conditionCount) + ActionsBlock(actionsCode, hasSubEvents, subEventsCode)
  }

  /** The template written step by step: `outputCode` and the guard
      `ifPredicat` grow by appending, the guard in a loop over the conditions. */
  method GenerateEventCode<Condition, Event>(
    conditionsCode: string, conditions: seq<Condition>,
    actionsCode: string,
    events: seq<Event>, subEventsCode: string)
    returns (outputCode: string)
    ensures outputCode == TemplateCode(conditionsCode, |conditions|, actionsCode, events != [], subEventsCode)
  {
    outputCode := "";
    outputCode := outputCode + conditionsCode;
    assert outputCode == conditionsCode;

    var ifPredicat := "";
    var i := 0;
    while i < |conditions|
      invariant 0 <= i <= |conditions|
      invariant ifPredicat == Guard(i)
    {
      if i != 0 {
        ifPredicat := ifPredicat + " && ";
      }
      ifPredicat := ifPredicat + ConditionFlag(i);
      i := i + 1;
    }

    GuardEmpty(|conditions|);
    if ifPredicat != "" {
      outputCode := outputCode + "if (" + ifPredicat + ")\n";
      assert IfLine(|conditions|) == "if (" + ifPredicat + ")\n";
    } else {
      assert IfLine(|conditions|) == "";
    }
    assert outputCode == conditionsCode + IfLine(|conditions|);
    ghost var head := outputCode;

    outputCode := outputCode + "{\n";
    outputCode := outputCode + actionsCode;
    if events != [] {
      outputCode := outputCode + "\n{\n";
      outputCode := outputCode + subEventsCode;
      outputCode := outputCode + "}\n";
    }
    outputCode := outputCode + "}\n";
    AppendedActionsBlock(head, actionsCode, events != [], subEventsCode);
  }

  /** The appends after the `if` line leave the actions' block behind the head. */
  lemma AppendedActionsBlock(head: string, actionsCode: string, hasSubEvents: bool, subEventsCode: string)
    ensures (if hasSubEvents then head + "{\n" + actionsCode + "\n{\n" + subEventsCode + "}\n"
             else head + "{\n" + actionsCode) + "}\n"
         == head + ActionsBlock(actionsCode, hasSubEvents, subEventsCode)
  {
  }

  // Properties of the guard.

  /** The guard is the flags of conditions 0 .. n - 1, in order, joined by " && ". */
  lemma {:induction false} GuardIsJoin(n: nat)
    ensures Guard(n) == JoinWith(" && ", ConditionFlags(n))
  {
    if n == 1 {
      assert ConditionFlags(1) == [ConditionFlag(0)];
    } else if n > 1 {
      GuardIsJoin(n - 1);
      JoinWithAppend(" && ", ConditionFlags(n - 1), ConditionFlag(n - 1));
    }
  }

  /** The guard is empty exactly when there are no conditions. */
  lemma GuardEmpty(n: nat)
    ensures Guard(n) == "" <==> n == 0
  {
    if n > 0 {
      assert |Guard(n)| >= |ConditionFlag(n - 1)| > 0;
    }
  }

  /** Flags of different conditions differ. */
  lemma ConditionFlagInjective(i: nat, j: nat)
    ensures ConditionFlag(i) == ConditionFlag(j) ==> i == j
  {
    if ConditionFlag(i) == ConditionFlag(j) {
      var a, b := NatToString(i), NatToString(j);
      var fi, fj := ConditionFlag(i), ConditionFlag(j);
      assert |a| == |b|;
      assert a == fi[9..9 + |a|];
      assert b == fj[9..9 + |b|];
      NatToStringInjective(i, j);
    }
  }

  /** A flag holds letters and digits only: no '&' and no brace. */
  lemma ConditionFlagChars(i: nat)
    ensures '&' !in ConditionFlag(i)
    ensures BraceFree(ConditionFlag(i))
  {
    var d := NatToString(i);
    assert forall k :: 0 <= k < |d| ==> '0' <= d[k] <= '9';
  }

  /** The guard for n conditions holds n - 1 separators " && ": two '&' each. */
  lemma {:induction false} GuardSeparators(n: nat)
    requires n > 0
    ensures Count('&', Guard(n)) == 2 * (n - 1)
  {
    ConditionFlagChars(n - 1);
    CountAbsent('&', ConditionFlag(n - 1));
    if n > 1 {
      assert Count('&', " && ") == 2 by {
        assert " && "[..3] == " &&" && " &&"[..2] == " &" && " &"[..1] == " " && " "[..0] == "";
      }
      GuardSeparators(n - 1);
      CountConcat('&', Guard(n - 1) + " && ", ConditionFlag(n - 1));
      CountConcat('&', Guard(n - 1), " && ");
    }
  }

  /** The guard lists the flags in index order: the guard for m conditions is
      a prefix of the guard for any n >= m, and it ends with flag m - 1. */
  lemma {:induction false} GuardInOrder(m: nat, n: nat)
    requires 0 < m <= n
    ensures IsPrefix(Guard(m), Guard(n))
    ensures IsSuffix(ConditionFlag(m - 1), Guard(m))
    decreases n
  {
    if m == 1 {
      assert Guard(m) == "" + ConditionFlag(0);
    }
    SuffixOfAppend(if m == 1 then "" else Guard(m - 1) + " && ", ConditionFlag(m - 1));
    if n > m {
      GuardInOrder(m, n - 1);
      PrefixOfAppend(Guard(n - 1), " && " + ConditionFlag(n - 1));
      assert Guard(n) == Guard(n - 1) + (" && " + ConditionFlag(n - 1));
      PrefixTransitive(Guard(m), Guard(n - 1), Guard(n));
    } else {
      assert Guard(n)[..|Guard(m)|] == Guard(m);
    }
  }

  lemma {:induction false} GuardBraceFree(n: nat)
    ensures BraceFree(Guard(n))
  {
    if n > 0 {
      ConditionFlagChars(n - 1);
      GuardBraceFree(n - 1);
    }
  }

  // Properties of the generated code.

  lemma SliceAfter(a: string, b: string, c: string, k: nat)
    requires k <= |b + c|
    ensures |a + b + c| >= |a| + k
    ensures (a + b + c)[..|a|] == a
    ensures (a + b + c)[|a|..|a| + k] == (b + c)[..k]
  {
    assert a + b + c == a + (b + c);
  }

  /** Followed by a block, the `if` line shows as "if (" exactly when there are conditions. */
  lemma IfLineThenBlock(conditionCount: nat, block: string)
    requires |block| >= 4 && block[0] == '{'
    ensures conditionCount > 0 <==> (IfLine(conditionCount) + block)[..4] == "if ("
  {
    var line := IfLine(conditionCount);
    if conditionCount > 0 {
      var guard := Guard(conditionCount);
      assert line == "if (" + (guard + ")\n");
      assert line[..4] == "if (";
      assert (line + block)[..4] == line[..4];
    } else {
      assert line + block == block;
      assert (line + block)[..4][0] == '{';
    }
  }

  lemma ActionsBlockShape(actionsCode: string, hasSubEvents: bool, subEventsCode: string)
    ensures var b := ActionsBlock(actionsCode, hasSubEvents, subEventsCode);
      |b| >= 4 && b[0] == '{' && b[|b| - 2..] == "}\n"
  {
  }

  /** The conditions' code comes first; the `if` line follows it exactly when
      there is at least one condition; the code ends by closing the block. */
  lemma TemplateLayout(conditionsCode: string, conditionCount: nat, actionsCode: string,
                       hasSubEvents: bool, subEventsCode: string)
    ensures var out := TemplateCode(conditionsCode, conditionCount, actionsCode, hasSubEvents, subEventsCode);
      && |out| >= |conditionsCode| + 4
      && out[..|conditionsCode|] == conditionsCode
      && (conditionCount > 0 <==> out[|conditionsCode|..|conditionsCode| + 4] == "if (")
      && out[|out| - 2..] == "}\n"
  {
    var ifLine, block := IfLine(conditionCount), ActionsBlock(actionsCode, hasSubEvents, subEventsCode);
    ActionsBlockShape(actionsCode, hasSubEvents, subEventsCode);
    SliceAfter(conditionsCode, ifLine, block, 4);
    IfLineThenBlock(conditionCount, block);
    var out := conditionsCode + ifLine + block;
    assert out[|out| - 2..] == block[|block| - 2..];
  }

  /** Brace counts of the fixed pieces the template emits. */
  lemma TemplateLiterals()
    ensures Count('{', "{\n") == 1 && Count('}', "{\n") == 0
    ensures Count('{', "\n{\n") == 1 && Count('}', "\n{\n") == 0
    ensures Count('{', "}\n") == 0 && Count('}', "}\n") == 1
    ensures BraceFree("\n") && BraceFree("")
  {
    assert "{\n"[..1] == "{" && "{"[..0] == "";
    assert "}\n"[..1] == "}" && "}"[..0] == "";
    assert "\n{\n"[..2] == "\n{" && "\n{"[..1] == "\n" && "\n"[..0] == "";
  }

  /** How many blocks the actions' block opens. */
  lemma ActionsBlockOpens(actionsCode: string, hasSubEvents: bool, subEventsCode: string)
    ensures Count('{', ActionsBlock(actionsCode, hasSubEvents, subEventsCode))
         == Count('{', actionsCode) + if hasSubEvents then 2 + Count('{', subEventsCode) else 1
  {
    var ac, sub := actionsCode, SubEventsBlock(hasSubEvents, subEventsCode);
    TemplateLiterals();
    CountConcat('{', "{\n", ac);
    CountConcat('{', "{\n" + ac, sub);
    CountConcat('{', "{\n" + ac + sub, "}\n");
    if hasSubEvents {
      CountConcat('{', "\n{\n", subEventsCode);
      CountConcat('{', "\n{\n" + subEventsCode, "}\n");
    } else {
      CountAbsent('{', sub);
    }
  }

  /** The template opens one block for the actions, and a second one exactly
      when the event has sub-events. */
  lemma TemplateBlocks(conditionsCode: string, conditionCount: nat, actionsCode: string,
                       hasSubEvents: bool, subEventsCode: string)
    ensures var out := TemplateCode(conditionsCode, conditionCount, actionsCode, hasSubEvents, subEventsCode);
      Count('{', out) - Count('{', conditionsCode) - Count('{', actionsCode)
        == if hasSubEvents then 2 + Count('{', subEventsCode) else 1
  {
    var ifLine, block := IfLine(conditionCount), ActionsBlock(actionsCode, hasSubEvents, subEventsCode);
    IfLineBraceFree(conditionCount);
    CountAbsent('{', ifLine);
    CountConcat('{', conditionsCode, ifLine);
    CountConcat('{', conditionsCode + ifLine, block);
    ActionsBlockOpens(actionsCode, hasSubEvents, subEventsCode);
  }

  /** The nested block holding the sub-events is well nested when their code is. */
  lemma SubEventsBlockWellNested(hasSubEvents: bool, subEventsCode: string)
    requires WellNested(subEventsCode)
    ensures WellNested(SubEventsBlock(hasSubEvents, subEventsCode))
  {
    var sc := subEventsCode;
    TemplateLiterals();
    BraceFreeWellNested("\n");
    if hasSubEvents {
      WellNestedConcat("\n", sc);
      WellNestedEnclosed("\n" + sc);
      WellNestedConcat("{" + ("\n" + sc) + "}", "\n");
      WellNestedConcat("\n", "{" + ("\n" + sc) + "}" + "\n");
      EnclosedSubEvents(sc);
    } else {
      BraceFreeWellNested("");
    }
  }

  /** The block holding the actions and the sub-events' block is well nested. */
  lemma ActionsBlockWellNested(actionsCode: string, hasSubEvents: bool, subEventsCode: string)
    requires WellNested(actionsCode) && WellNested(subEventsCode)
    ensures WellNested(ActionsBlock(actionsCode, hasSubEvents, subEventsCode))
  {
    var ac, sub := actionsCode, SubEventsBlock(hasSubEvents, subEventsCode);
    SubEventsBlockWellNested(hasSubEvents, subEventsCode);
    TemplateLiterals();
    BraceFreeWellNested("\n");
    WellNestedConcat(ac, sub);
    WellNestedConcat("\n", ac + sub);
    WellNestedEnclosed("\n" + (ac + sub));
    WellNestedConcat("{" + ("\n" + (ac + sub)) + "}", "\n");
    EnclosedActions(ac, sub);
  }

  /** The sub-events' block is a newline, then their code with a newline in front wrapped in braces, then a newline. */
  lemma EnclosedSubEvents(subEventsCode: string)
    ensures "\n{\n" + subEventsCode + "}\n" == "\n" + ("{" + ("\n" + subEventsCode) + "}" + "\n")
  {
    assert "\n{\n" == "\n" + "{" + "\n";
    assert "}\n" == "}" + "\n";
  }

  /** The actions' block is a newline, the actions and the sub-events' block, wrapped in braces, then a newline. */
  lemma EnclosedActions(actionsCode: string, subEventsBlock: string)
    ensures "{\n" + actionsCode + subEventsBlock + "}\n" == "{" + ("\n" + (actionsCode + subEventsBlock)) + "}" + "\n"
  {
    assert "{\n" == "{" + "\n";
    assert "}\n" == "}" + "\n";
  }

  lemma IfLineBraceFree(conditionCount: nat)
    ensures BraceFree(IfLine(conditionCount))
  {
    GuardBraceFree(conditionCount);
  }

  /** x sits in pre + x + post right after pre. */
  lemma Between(pre: string, x: string, post: string)
    ensures |pre + x + post| >= |pre| + |x|
    ensures (pre + x + post)[..|pre|] == pre
    ensures (pre + x + post)[|pre|..|pre| + |x|] == x
  {
    assert pre + x + post == pre + (x + post);
  }

  /** The generated code around the actions' code. */
  lemma AroundActions(conditionsCode: string, conditionCount: nat, actionsCode: string,
                      hasSubEvents: bool, subEventsCode: string)
    ensures TemplateCode(conditionsCode, conditionCount, actionsCode, hasSubEvents, subEventsCode)
         == (conditionsCode + IfLine(conditionCount) + "{\n") + actionsCode
              + (SubEventsBlock(hasSubEvents, subEventsCode) + "}\n")
  {
  }

  /** The generated code around the sub-events' code, when there are sub-events. */
  lemma AroundSubEvents(conditionsCode: string, conditionCount: nat, actionsCode: string, subEventsCode: string)
    ensures TemplateCode(conditionsCode, conditionCount, actionsCode, true, subEventsCode)
         == (conditionsCode + IfLine(conditionCount) + "{\n" + actionsCode + "\n{\n") + subEventsCode
              + ("}\n" + "}\n")
  {
  }

  /** Where the block guarded by the `if` line opens: right after the
      conditions' code and the `if` line. */
  function GuardedBlockStart(conditionsCode: string, conditionCount: nat): nat {
    |conditionsCode| + |IfLine(conditionCount)|
  }

  /** The actions' code sits at the fixed position right after the guarded
      block's "{\n", where exactly one block is open. */
  lemma ActionsDepth(conditionsCode: string, conditionCount: nat, actionsCode: string,
                     hasSubEvents: bool, subEventsCode: string)
    requires Balance(conditionsCode) == 0
    ensures var out := TemplateCode(conditionsCode, conditionCount, actionsCode, hasSubEvents, subEventsCode);
      var p := GuardedBlockStart(conditionsCode, conditionCount) + 2;
      && p + |actionsCode| <= |out|
      && out[p..p + |actionsCode|] == actionsCode
      && Balance(out[..p]) == 1
  {
    var ifLine := IfLine(conditionCount);
    var pre := conditionsCode + ifLine + "{\n";
    var out := TemplateCode(conditionsCode, conditionCount, actionsCode, hasSubEvents, subEventsCode);
    AroundActions(conditionsCode, conditionCount, actionsCode, hasSubEvents, subEventsCode);
    Between(pre, actionsCode, SubEventsBlock(hasSubEvents, subEventsCode) + "}\n");
    IfLineBraceFree(conditionCount);
    BraceFreeBalance(ifLine);
    TemplateLiterals();
    BalanceConcat(conditionsCode, ifLine);
    BalanceConcat(conditionsCode + ifLine, "{\n");
    assert out[..|pre|] == pre && out[|pre|..|pre| + |actionsCode|] == actionsCode && Balance(pre) == 1;
  }

  /** With sub-events, their code sits at the fixed position after the
      actions' code and the "\n{\n" opening their block, where exactly two
      blocks are open. */
  lemma SubEventsDepth(conditionsCode: string, conditionCount: nat, actionsCode: string, subEventsCode: string)
    requires Balance(conditionsCode) == 0 && Balance(actionsCode) == 0
    ensures var out := TemplateCode(conditionsCode, conditionCount, actionsCode, true, subEventsCode);
      var q := GuardedBlockStart(conditionsCode, conditionCount) + 2 + |actionsCode| + 3;
      && q + |subEventsCode| <= |out|
      && out[q..q + |subEventsCode|] == subEventsCode
      && Balance(out[..q]) == 2
  {
    var ifLine := IfLine(conditionCount);
    var pre := conditionsCode + ifLine + "{\n" + actionsCode + "\n{\n";
    var out := TemplateCode(conditionsCode, conditionCount, actionsCode, true, subEventsCode);
    AroundSubEvents(conditionsCode, conditionCount, actionsCode, subEventsCode);
    Between(pre, subEventsCode, "}\n" + "}\n");
    IfLineBraceFree(conditionCount);
    BraceFreeBalance(ifLine);
    TemplateLiterals();
    BalanceConcat(conditionsCode, ifLine);
    BalanceConcat(conditionsCode + ifLine, "{\n");
    BalanceConcat(conditionsCode + ifLine + "{\n", actionsCode);
    BalanceConcat(conditionsCode + ifLine + "{\n" + actionsCode, "\n{\n");
    assert out[..|pre|] == pre && out[|pre|..|pre| + |subEventsCode|] == subEventsCode && Balance(pre) == 2;
  }

  lemma RegroupActionsBlock(head: string, actionsCode: string, subEventsBlock: string)
    ensures head + ("{\n" + actionsCode + subEventsBlock + "}\n")
         == head + "{" + ("\n" + (actionsCode + subEventsBlock)) + "}" + "\n"
  {
    EnclosedActions(actionsCode, subEventsBlock);
  }

  /** The block opened right after the `if` line stays open until the final
      "}\n": everything in between, actions and sub-events included, is guarded. */
  lemma GuardedBlockStaysOpen(conditionsCode: string, conditionCount: nat, actionsCode: string,
                              hasSubEvents: bool, subEventsCode: string)
    requires Balance(conditionsCode) == 0 && WellNested(actionsCode) && WellNested(subEventsCode)
    ensures var out := TemplateCode(conditionsCode, conditionCount, actionsCode, hasSubEvents, subEventsCode);
      var h := GuardedBlockStart(conditionsCode, conditionCount);
      && h + 4 <= |out|
      && out[h] == '{'
      && forall j :: h < j <= |out| - 2 ==> Balance(out[..j]) >= 1
  {
    var ifLine, sub := IfLine(conditionCount), SubEventsBlock(hasSubEvents, subEventsCode);
    var inner := "\n" + (actionsCode + sub);
    SubEventsBlockWellNested(hasSubEvents, subEventsCode);
    TemplateLiterals();
    BraceFreeWellNested("\n");
    WellNestedConcat(actionsCode, sub);
    WellNestedConcat("\n", actionsCode + sub);
    IfLineBraceFree(conditionCount);
    BraceFreeBalance(ifLine);
    BalanceConcat(conditionsCode, ifLine);
    RegroupActionsBlock(conditionsCode + ifLine, actionsCode, sub);
    EnclosedStaysOpen(conditionsCode + ifLine, inner, "\n");
  }

  /** The generated code around the block opened for the sub-events. */
  lemma AroundSubEventsBlock(conditionsCode: string, conditionCount: nat, actionsCode: string, subEventsCode: string)
    ensures TemplateCode(conditionsCode, conditionCount, actionsCode, true, subEventsCode)
         == (conditionsCode + IfLine(conditionCount) + "{\n" + actionsCode + "\n") + "{" + ("\n" + subEventsCode)
              + "}" + ("\n" + "}\n")
  {
    AroundSubEvents(conditionsCode, conditionCount, actionsCode, subEventsCode);
    RegroupSubEventsBlock(conditionsCode + IfLine(conditionCount) + "{\n" + actionsCode, subEventsCode);
  }

  lemma RegroupSubEventsBlock(head: string, subEventsCode: string)
    ensures (head + "\n{\n") + subEventsCode + ("}\n" + "}\n")
         == (head + "\n") + "{" + ("\n" + subEventsCode) + "}" + ("\n" + "}\n")
  {
    assert "\n{\n" == "\n" + "{" + "\n";
    assert "}\n" + "}\n" == "}" + ("\n" + "}\n");
  }

  /** Just before the sub-events' block opens, one block is open. */
  lemma BeforeSubEventsBlock(conditionsCode: string, conditionCount: nat, actionsCode: string)
    requires Balance(conditionsCode) == 0 && Balance(actionsCode) == 0
    ensures Balance(conditionsCode + IfLine(conditionCount) + "{\n" + actionsCode + "\n") == 1
  {
    var ifLine := IfLine(conditionCount);
    TemplateLiterals();
    IfLineBraceFree(conditionCount);
    BraceFreeBalance(ifLine);
    BraceFreeBalance("\n");
    BalanceConcat(conditionsCode, ifLine);
    BalanceConcat(conditionsCode + ifLine, "{\n");
    BalanceConcat(conditionsCode + ifLine + "{\n", actionsCode);
    BalanceConcat(conditionsCode + ifLine + "{\n" + actionsCode, "\n");
  }

  /** With sub-events, the block opened for them stays open over their whole
      code, while the guarded block around it stays open too. */
  lemma SubEventsBlockStaysOpen(conditionsCode: string, conditionCount: nat, actionsCode: string,
                                subEventsCode: string)
    requires Balance(conditionsCode) == 0 && Balance(actionsCode) == 0 && WellNested(subEventsCode)
    ensures var out := TemplateCode(conditionsCode, conditionCount, actionsCode, true, subEventsCode);
      var s := GuardedBlockStart(conditionsCode, conditionCount) + 2 + |actionsCode| + 1;
      && s + 2 + |subEventsCode| <= |out|
      && out[s] == '{'
      && forall j :: s < j <= s + 2 + |subEventsCode| ==> Balance(out[..j]) >= 2
  {
    var pre := conditionsCode + IfLine(conditionCount) + "{\n" + actionsCode + "\n";
    var inner := "\n" + subEventsCode;
    TemplateLiterals();
    BraceFreeWellNested("\n");
    WellNestedConcat("\n", subEventsCode);
    BeforeSubEventsBlock(conditionsCode, conditionCount, actionsCode);
    AroundSubEventsBlock(conditionsCode, conditionCount, actionsCode, subEventsCode);
    EnclosedStaysOpen(pre, inner, "\n" + "}\n");
  }

  /** With well-nested code from the generator, the generated code is well
      nested; the block opened right after the `if` line stays open until the
      final "}\n"; the actions' code starts right inside it, one block deep;
      and the sub-events' code, when there are sub-events, sits in a second
      block that opens after the actions and stays open over all of it, two
      blocks deep, strictly inside the guarded block. */
  lemma TemplateNesting(conditionsCode: string, conditionCount: nat, actionsCode: string,
                        hasSubEvents: bool, subEventsCode: string)
    requires WellNested(conditionsCode) && WellNested(actionsCode) && WellNested(subEventsCode)
    ensures var out := TemplateCode(conditionsCode, conditionCount, actionsCode, hasSubEvents, subEventsCode);
      var h := GuardedBlockStart(conditionsCode, conditionCount);
      var p := h + 2;
      var q := p + |actionsCode| + 3;
      && WellNested(out)
      && h + 4 <= |out| && out[h] == '{'
      && (forall j :: h < j <= |out| - 2 ==> Balance(out[..j]) >= 1)
      && p + |actionsCode| <= |out| && out[p..p + |actionsCode|] == actionsCode && Balance(out[..p]) == 1
      && (hasSubEvents ==>
            && q + |subEventsCode| <= |out|
            && out[q..q + |subEventsCode|] == subEventsCode && Balance(out[..q]) == 2
            && (forall j :: q - 2 < j <= q + |subEventsCode| ==> Balance(out[..j]) >= 2))
  {
    var ifLine := IfLine(conditionCount);
    IfLineBraceFree(conditionCount);
    BraceFreeWellNested(ifLine);
    ActionsBlockWellNested(actionsCode, hasSubEvents, subEventsCode);
    WellNestedConcat(conditionsCode, ifLine);
    WellNestedConcat(conditionsCode + ifLine, ActionsBlock(actionsCode, hasSubEvents, subEventsCode));
    GuardedBlockStaysOpen(conditionsCode, conditionCount, actionsCode, hasSubEvents, subEventsCode);
    ActionsDepth(conditionsCode, conditionCount, actionsCode, hasSubEvents, subEventsCode);
    if hasSubEvents {
      SubEventsDepth(conditionsCode, conditionCount, actionsCode, subEventsCode);
      SubEventsBlockStaysOpen(conditionsCode, conditionCount, actionsCode, subEventsCode);
    }
  }

  lemma FirstConditionFlag()
    ensures ConditionFlag(0) == "condition0IsTrue"
  {
    assert NatToString(0) == "0";
  }

  /** One condition and sub-events: after the conditions' code, the `if` on
      condition 0 guards the actions' block, and the sub-events' block sits
      inside it, after the actions. */
  lemma OneConditionWithSubEvent(conditionsCode: string, actionsCode: string, subEventsCode: string)
    ensures TemplateCode(conditionsCode, 1, actionsCode, true, subEventsCode)
         == conditionsCode + "if (condition0IsTrue)\n" + "{\n" + actionsCode + "\n{\n" + subEventsCode + "}\n" + "}\n"
  {
    OneConditionIfLine();
    var block := ActionsBlock(actionsCode, true, subEventsCode);
    assert block == "{\n" + actionsCode + "\n{\n" + subEventsCode + "}\n" + "}\n";
  }

  /** The `if` line for a single condition. */
  lemma OneConditionIfLine()
    ensures IfLine(1) == "if (condition0IsTrue)\n"
  {
    FirstConditionFlag();
  }
}
