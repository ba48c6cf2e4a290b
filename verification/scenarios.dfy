/** Concrete machines: a one-rule acceptor, the same machine rejecting for
    want of a rule, a two-rule machine that walks onto the blank, and a
    malformed rule line. */
module Scenarios {
  import opened Optional
  import opened CString
  import opened Parser
  import opened Turing

  /** The rule `(q0,1)->(qA,1,R)`. */
  const AcceptOne: Transition := Transition("q0", '1', "qA", '1', 'R')

  /** A text without terminator is its own content. */
  lemma ContentOfPlainText(s: seq<char>)
    requires NUL !in s
    ensures Content(s) == s
  {
  }

  /** The header labels of the machines below hold no terminator. */
  lemma HeaderLabels()
    ensures Content("q0") == "q0" && Content("qA") == "qA" && Content("qR") == "qR"
  {
    ContentOfPlainText("q0");
    ContentOfPlainText("qA");
    ContentOfPlainText("qR");
  }

  /** A rule line written out in full loads as the rule it spells. */
  lemma ParseRuleLine(t: Transition)
    requires WellFormed(t)
    ensures ParseRule(RuleLine(t)) == Some(t)
  {
    assert NUL !in RuleLine(t) by {
      assert RuleLine(t) == GroupText("(", t.currentState, t.read) + GroupText(")->(", t.nextState, t.write) + [',', t.movement, ')'];
    }
    ContentOfPlainText(RuleLine(t));
    RuleLineRoundTrip(t);
  }

  /** The one rule line parses as the single rule. */
  lemma ParsesAcceptOne()
    ensures ParseRules(["(q0,1)->(qA,1,R)"]).Success?
    ensures ParseRules(["(q0,1)->(qA,1,R)"]).value == [AcceptOne]
  {
    assert RuleLine(AcceptOne) == "(q0,1)->(qA,1,R)";
    ParseRuleLine(AcceptOne);
    var r := ParseRules(["(q0,1)->(qA,1,R)"]);
    assert r.value[0] == AcceptOne;
    assert r.value == [AcceptOne];
  }

  /** The one-line file loads as the machine with the single rule. */
  lemma LoadsAcceptOne()
    ensures Load("q0", "qA", "qR", ["(q0,1)->(qA,1,R)"]) == Success(Machine("q0", "qA", "qR", [AcceptOne]))
  {
    ParsesAcceptOne();
    HeaderLabels();
  }

  /** Machine q0/qA/qR with the single rule `(q0,1)->(qA,1,R)` accepts "1". */
  lemma AcceptsOne()
    ensures Load("q0", "qA", "qR", ["(q0,1)->(qA,1,R)"]).Success?
    ensures Execute(Load("q0", "qA", "qR", ["(q0,1)->(qA,1,R)"]).value, "1", 1) == Some(1)
  {
    LoadsAcceptOne();
    var m := Machine("q0", "qA", "qR", [AcceptOne]);
    ContentOfPlainText("1");
    var c := Start(m, "1");
    assert c.tape.Read(0) == '1';
    assert Selected(m.rules, c.state, c.tape.Read(c.head), 0);
    StepAppliesSelectedRule(m, c, 0);
    assert Halted(m, Step(m, c));
  }

  /** The same machine rejects "0": no rule reads '0', so the loop goes to
      the reject state. */
  lemma RejectsZero()
    ensures Load("q0", "qA", "qR", ["(q0,1)->(qA,1,R)"]).Success?
    ensures Execute(Load("q0", "qA", "qR", ["(q0,1)->(qA,1,R)"]).value, "0", 1) == Some(0)
  {
    LoadsAcceptOne();
    var m := Machine("q0", "qA", "qR", [AcceptOne]);
    ContentOfPlainText("0");
    var c := Start(m, "0");
    assert c.tape.Read(0) == '0';
    MissingRuleRejects(m, c, 0);
  }

  /** The rule `(q0,0)->(qA,1,R)`. */
  const ZeroToOne: Transition := Transition("q0", '0', "qA", '1', 'R')

  /** The rule `(q0,1)->(q0,0,L)`. */
  const OneToZero: Transition := Transition("q0", '1', "q0", '0', 'L')

  /** The two rule lines of the increment-like machine. */
  const IncrementLines: seq<seq<char>> := ["(q0,0)->(qA,1,R)", "(q0,1)->(q0,0,L)"]

  /** The first line of the increment-like machine reads as its first rule. */
  lemma ParsesZeroToOne()
    ensures ParseRule("(q0,0)->(qA,1,R)") == Some(ZeroToOne)
  {
    assert RuleLine(ZeroToOne) == "(q0,0)->(qA,1,R)";
    ParseRuleLine(ZeroToOne);
  }

  /** The second line of the increment-like machine reads as its second rule. */
  lemma ParsesOneToZero()
    ensures ParseRule("(q0,1)->(q0,0,L)") == Some(OneToZero)
  {
    assert RuleLine(OneToZero) == "(q0,1)->(q0,0,L)";
    ParseRuleLine(OneToZero);
  }

  /** The two rule lines parse as the two rules, in file order. */
  lemma ParsesIncrement()
    ensures ParseRules(IncrementLines).Success?
    ensures ParseRules(IncrementLines).value == [ZeroToOne, OneToZero]
  {
    ParsesZeroToOne();
    ParsesOneToZero();
    var lines := IncrementLines;
    assert lines[0] == "(q0,0)->(qA,1,R)" && lines[1] == "(q0,1)->(q0,0,L)";
    var r := ParseRules(lines);
    assert r.value[0] == ZeroToOne && r.value[1] == OneToZero;
    assert r.value == [ZeroToOne, OneToZero];
  }

  /** The increment-like machine loads with its two rules in file order. */
  lemma LoadsIncrement()
    ensures Load("q0", "qA", "qR", IncrementLines) == Success(Machine("q0", "qA", "qR", [ZeroToOne, OneToZero]))
  {
    ParsesIncrement();
    HeaderLabels();
  }

  /** On "111" the machine rewrites cell 0 to '0', stays in q0 and steps
      left onto the blank cell -1. */
  lemma IncrementFirstPass()
    ensures var m := Machine("q0", "qA", "qR", [ZeroToOne, OneToZero]);
      var c1 := Step(m, Start(m, "111"));
      && c1.state == "q0" && c1.head == -1
      && c1.tape.Read(0) == '0' && c1.tape.Read(-1) == BLANK
  {
    var m := Machine("q0", "qA", "qR", [ZeroToOne, OneToZero]);
    ContentOfPlainText("111");
    var c0 := Start(m, "111");
    assert c0.tape.Read(0) == '1';
    assert c0.tape.Read(-1) == BLANK;
    assert Selected(m.rules, c0.state, c0.tape.Read(c0.head), 1);
    StepAppliesSelectedRule(m, c0, 1);
  }

  /** After its first pass on "111" the machine has its head on a blank
      cell, finds no rule that reads the blank and rejects. */
  lemma IncrementRejectsAfterOnePass()
    ensures var m := Machine("q0", "qA", "qR", [ZeroToOne, OneToZero]);
      Run(m, Start(m, "111"), 2) == Halt(Config("qR", Step(m, Start(m, "111")).tape, -1))
  {
    var m := Machine("q0", "qA", "qR", [ZeroToOne, OneToZero]);
    var c0 := Start(m, "111");
    IncrementFirstPass();
    var c1 := Step(m, c0);
    BlankCellRejects(m, c1);
    MissingRuleRejects(m, c1, 0);
  }

  /** The increment-like machine on "111" rewrites cell 0 to '0', steps left
      onto the blank cell -1, finds no rule that reads the blank (none can) and
      rejects: it never carries into a new leading '1'. */
  lemma CarryOntoBlankRejects()
    ensures Load("q0", "qA", "qR", IncrementLines).Success?
    ensures Execute(Load("q0", "qA", "qR", IncrementLines).value, "111", 2) == Some(0)
  {
    LoadsIncrement();
    IncrementRejectsAfterOnePass();
  }

  /** A rule line cut short after `->` is rejected, and loading reports it as
      rule line 0. */
  lemma MalformedLineFailsLoad()
    ensures Load("q0", "qA", "qR", ["(q0,1)->bad"]) == Failure(MalformedTransition(0))
  {
    assert ParseRule("(q0,1)->bad").None?;
  }

  /** A header label is read up to its terminator, as `strcmp` reads it: with
      accept label "qA\0x" the one-rule machine still accepts "1". */
  lemma AcceptLabelEndsAtTerminator()
    ensures Load("q0", "qA\0x", "qR", ["(q0,1)->(qA,1,R)"]).Success?
    ensures Execute(Load("q0", "qA\0x", "qR", ["(q0,1)->(qA,1,R)"]).value, "1", 1) == Some(1)
  {
    LoadsAcceptOne();
    assert Content("qA\0x") == "qA" by {
      assert "qA\0x"[2] == NUL;
    }
    AcceptsOne();
  }
}
