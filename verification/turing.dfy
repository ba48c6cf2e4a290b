/** The machine interpreter: the tape, first-match rule selection, one step
    of the loop in `execute`, the run to a halting state (bounded by fuel),
    and a loader that builds a machine from already-read lines. */
module Turing {
  import opened Optional
  import opened CString
  import opened Parser

  /** The symbol of every cell that input did not fill: the tape is zero-filled. */
  const BLANK: char := NUL

  /** A tape without bounds in either direction: cells never written read as BLANK. */
  datatype Tape = Tape(cells: map<int, char>) {

    function Read(pos: int): char {
      if pos in cells then cells[pos] else BLANK
    }

    function Write(pos: int, c: char): (t: Tape)
      ensures t.Read(pos) == c
      ensures forall p :: p != pos ==> t.Read(p) == Read(p)
    {
      Tape(cells[pos := c])
    }
  }

  /** The tape at the start of a run: the characters of the input string from
      cell 0 on, BLANK everywhere else. */
  function InputTape(input: seq<char>): (t: Tape)
    ensures forall p :: 0 <= p < |Content(input)| ==> t.Read(p) == input[p]
    ensures forall p :: p < 0 || p >= |Content(input)| ==> t.Read(p) == BLANK
  {
    var n := |Content(input)|;
    Tape(map p | 0 <= p < n :: input[p])
  }

  /** The three labels read from the head of the description, and the rules in
      file order. */
  datatype Machine = Machine(initial: seq<char>, accept: seq<char>, reject: seq<char>, rules: seq<Transition>)

  /** Where a run stands: the current state, the tape and the head position. */
  datatype Config = Config(state: seq<char>, tape: Tape, head: int)

  /** The loop of `execute` stops in the accept or the reject state. */
  predicate Halted(m: Machine, c: Config) {
    c.state == m.accept || c.state == m.reject
  }

  /** Rule `t` applies in state `state` with `sym` under the head. */
  predicate Matches(t: Transition, state: seq<char>, sym: char) {
    t.currentState == state && t.read == sym
  }

  /** Rule `k` is the one the scan in file order picks: it matches and no
      earlier rule does. */
  predicate Selected(rules: seq<Transition>, state: seq<char>, sym: char, k: int) {
    && 0 <= k < |rules|
    && Matches(rules[k], state, sym)
    && forall j :: 0 <= j < k ==> !Matches(rules[j], state, sym)
  }

  /** The first rule at or after index `from` that matches. */
  function FirstMatchFrom(rules: seq<Transition>, state: seq<char>, sym: char, from: nat): (r: Option<nat>)
    requires from <= |rules|
    ensures r.Some? ==> from <= r.value < |rules| && Matches(rules[r.value], state, sym)
    ensures r.Some? ==> forall j :: from <= j < r.value ==> !Matches(rules[j], state, sym)
    ensures r.None? ==> forall j :: from <= j < |rules| ==> !Matches(rules[j], state, sym)
    decreases |rules| - from
  {
    if from == |rules| then None
    else if Matches(rules[from], state, sym) then Some(from)
    else FirstMatchFrom(rules, state, sym, from + 1)
  }

  /** The rule lookup of `execute`: scan the rules in file order, stop at the
      first match. */
  function FirstMatch(rules: seq<Transition>, state: seq<char>, sym: char): (r: Option<nat>)
    ensures r.Some? ==> Selected(rules, state, sym, r.value)
    ensures r.None? <==> forall j :: 0 <= j < |rules| ==> !Matches(rules[j], state, sym)
  {
    FirstMatchFrom(rules, state, sym, 0)
  }

  /** Head displacement: only 'R' moves right, every other character moves left. */
  function Shift(movement: char): int {
    if movement == 'R' then 1 else -1
  }

  /** One pass of the loop body: apply the first matching rule, or, when none
      matches, go to the reject state and leave tape and head alone. */
  function Step(m: Machine, c: Config): (r: Config)
    requires !Halted(m, c)
    ensures (forall j :: 0 <= j < |m.rules| ==> !Matches(m.rules[j], c.state, c.tape.Read(c.head))) ==>
              r.state == m.reject && r.tape == c.tape && r.head == c.head
  {
    match FirstMatch(m.rules, c.state, c.tape.Read(c.head))
    case None => Config(m.reject, c.tape, c.head)
    case Some(k) =>
      var t := m.rules[k];
      Config(t.nextState, c.tape.Write(c.head, t.write), c.head + Shift(t.movement))
  }

  /** A pass that finds its rule writes that rule's symbol under the head,
      moves the head one cell (right for 'R', left otherwise), takes the rule's
      next state, and changes no other cell. */
  lemma StepAppliesSelectedRule(m: Machine, c: Config, k: int)
    requires !Halted(m, c)
    requires Selected(m.rules, c.state, c.tape.Read(c.head), k)
    ensures Step(m, c).state == m.rules[k].nextState
    ensures Step(m, c).head == c.head + Shift(m.rules[k].movement)
    ensures Step(m, c).tape.Read(c.head) == m.rules[k].write
    ensures forall p :: p != c.head ==> Step(m, c).tape.Read(p) == c.tape.Read(p)
  {
    var r := FirstMatch(m.rules, c.state, c.tape.Read(c.head));
    SelectedIsUnique(m.rules, c.state, c.tape.Read(c.head), r.value, k);
  }

  /** At most one rule is selected for a state and a symbol. */
  lemma SelectedIsUnique(rules: seq<Transition>, state: seq<char>, sym: char, k1: int, k2: int)
    requires Selected(rules, state, sym, k1) && Selected(rules, state, sym, k2)
    ensures k1 == k2
  {
  }

  /** The configuration after `k` passes of the loop; a halted configuration
      stays where it is. */
  function Steps(m: Machine, c: Config, k: nat): Config
    decreases k
  {
    if k == 0 || Halted(m, c) then c else Steps(m, Step(m, c), k - 1)
  }

  /** How a bounded run ends: in a halting state, or with fuel spent and the
      machine still running. */
  datatype Outcome = Halt(final: Config) | OutOfFuel(last: Config)

  /** The loop of `execute`, allowed at most `fuel` passes. */
  function Run(m: Machine, c: Config, fuel: nat): (r: Outcome)
    ensures r.Halt? ==> Halted(m, r.final)
    ensures r.OutOfFuel? ==> !Halted(m, r.last)
    decreases fuel
  {
    if Halted(m, c) then Halt(c)
    else if fuel == 0 then OutOfFuel(c)
    else Run(m, Step(m, c), fuel - 1)
  }

  /** The return value of `execute` for the state the loop stopped in. */
  function Verdict(m: Machine, final: Config): (code: int)
    ensures code == 1 || code == 0
    ensures code == 1 <==> final.state == m.accept
  {
    if final.state == m.accept then 1 else 0
  }

  /** The configuration `execute` starts from. */
  function Start(m: Machine, input: seq<char>): Config {
    Config(m.initial, InputTape(input), 0)
  }

  /** `execute` after loading: the verdict when the machine halts within
      `fuel` passes, None when it is still running. */
  function Execute(m: Machine, input: seq<char>, fuel: nat): (r: Option<int>)
    ensures r.Some? <==> Run(m, Start(m, input), fuel).Halt?
    ensures r.Some? ==> (r.value == 1 <==> Run(m, Start(m, input), fuel).final.state == m.accept)
    ensures r.Some? ==> (r.value == 0 <==> Run(m, Start(m, input), fuel).final.state != m.accept)
    ensures r.Some? && r.value == 0 ==> Run(m, Start(m, input), fuel).final.state == m.reject
  {
    match Run(m, Start(m, input), fuel)
    case Halt(final) => Some(Verdict(m, final))
    case OutOfFuel(_) => None
  }

  /** Every label of the machine is free of the terminator, so comparing
      labels with equality is comparing them with `strcmp`. */
  predicate Labelled(m: Machine) {
    && NUL !in m.initial && NUL !in m.accept && NUL !in m.reject
    && forall t :: t in m.rules ==> NUL !in t.currentState && NUL !in t.nextState
  }

  /** The loop condition: a configuration is halted exactly when `strcmp`
      finds its state equal to the accept or to the reject label. */
  lemma HaltedIsStrCmp(m: Machine, c: Config)
    requires Labelled(m) && NUL !in c.state
    ensures Halted(m, c) <==>
      StrCmp(c.state + [NUL], m.accept + [NUL]) == 0 || StrCmp(c.state + [NUL], m.reject + [NUL]) == 0
  {
    LabelsCompareEqual(c.state, m.accept);
    LabelsCompareEqual(c.state, m.reject);
  }

  /** The lookup test: a rule matches exactly when `strcmp` finds its state
      equal to the current one and its read symbol is the one under the head. */
  lemma MatchesIsStrCmp(t: Transition, state: seq<char>, sym: char)
    requires NUL !in t.currentState && NUL !in state
    ensures Matches(t, state, sym) <==> StrCmp(t.currentState + [NUL], state + [NUL]) == 0 && t.read == sym
  {
    LabelsCompareEqual(t.currentState, state);
  }

  /** The return value: 1 exactly when `strcmp` finds the final state equal to
      the accept label, 0 otherwise. */
  lemma VerdictIsStrCmp(m: Machine, final: Config)
    requires NUL !in final.state && NUL !in m.accept
    ensures Verdict(m, final) == 1 <==> StrCmp(final.state + [NUL], m.accept + [NUL]) == 0
    ensures Verdict(m, final) == 0 <==> StrCmp(final.state + [NUL], m.accept + [NUL]) != 0
  {
    LabelsCompareEqual(final.state, m.accept);
  }

  /** Every state a labelled machine passes through is a label, so the three
      lemmas above apply all along a run. */
  lemma {:induction false} StepsKeepLabels(m: Machine, c: Config, k: nat)
    requires Labelled(m) && NUL !in c.state
    ensures NUL !in Steps(m, c, k).state
    decreases k
  {
    if k > 0 && !Halted(m, c) {
      var r := FirstMatch(m.rules, c.state, c.tape.Read(c.head));
      if r.Some? {
        assert m.rules[r.value] in m.rules;
      }
      StepsKeepLabels(m, Step(m, c), k - 1);
    }
  }

  /** A bounded run ends where `fuel` passes of the loop lead: halted there,
      or still running there. */
  lemma {:induction false} RunIsSteps(m: Machine, c: Config, fuel: nat)
    ensures Run(m, c, fuel) == (if Halted(m, Steps(m, c, fuel)) then Halt(Steps(m, c, fuel)) else OutOfFuel(Steps(m, c, fuel)))
    decreases fuel
  {
    if !Halted(m, c) && fuel > 0 {
      var next := Step(m, c);
      assert Run(m, c, fuel) == Run(m, next, fuel - 1);
      assert Steps(m, c, fuel) == Steps(m, next, fuel - 1);
      RunIsSteps(m, next, fuel - 1);
    }
  }

  /** Once halted, further passes change nothing. */
  lemma {:induction false} HaltedIsAbsorbing(m: Machine, c: Config, j: nat, k: nat)
    requires j <= k && Halted(m, Steps(m, c, j))
    ensures Steps(m, c, k) == Steps(m, c, j)
    decreases j
  {
    if j > 0 && !Halted(m, c) {
      HaltedIsAbsorbing(m, Step(m, c), j - 1, k - 1);
    }
  }

  /** The run halts within `fuel` passes exactly when some configuration
      within `fuel` passes is in the accept or the reject state, and it stops
      at the first such configuration. */
  lemma RunHaltsAtFirstHalt(m: Machine, c: Config, fuel: nat)
    ensures Run(m, c, fuel).Halt? <==> exists k :: 0 <= k <= fuel && Halted(m, Steps(m, c, k))
    ensures Run(m, c, fuel).Halt? ==> forall k :: 0 <= k <= fuel && Halted(m, Steps(m, c, k)) ==> Run(m, c, fuel).final == Steps(m, c, k)
  {
    RunIsSteps(m, c, fuel);
    forall k | 0 <= k <= fuel && Halted(m, Steps(m, c, k))
      ensures Steps(m, c, fuel) == Steps(m, c, k)
    {
      HaltedIsAbsorbing(m, c, k, fuel);
    }
  }

  /** More fuel never changes how a halted run ended: the verdict does not
      depend on the bound. */
  lemma {:induction false} RunFuelMonotone(m: Machine, c: Config, fuel: nat, more: nat)
    requires Run(m, c, fuel).Halt?
    requires fuel <= more
    ensures Run(m, c, more) == Run(m, c, fuel)
    decreases fuel
  {
    if !Halted(m, c) {
      RunFuelMonotone(m, Step(m, c), fuel - 1, more - 1);
    }
  }

  /** A configuration without a matching rule is one pass from the reject
      state; the verdict is then 0 unless accept and reject share a label. */
  lemma MissingRuleRejects(m: Machine, c: Config, fuel: nat)
    requires !Halted(m, c)
    requires forall j :: 0 <= j < |m.rules| ==> !Matches(m.rules[j], c.state, c.tape.Read(c.head))
    ensures Run(m, c, fuel + 1) == Halt(Config(m.reject, c.tape, c.head))
    ensures Verdict(m, Run(m, c, fuel + 1).final) == (if m.reject == m.accept then 1 else 0)
  {
  }

  /** Why loading failed: the index, among the rule lines, of the first line
      the parser rejected. */
  datatype LoadError = MalformedTransition(index: nat)

  /** What `parse_line` gets for one line read by `fgets`: the line and its
      `strlen2` length. */
  function ParseRule(line: seq<char>): Option<Transition> {
    ParseLine(Some(line), |Content(line)|)
  }

  /** Parses every line with `parse`, in order, and fails at the first line
      that does not parse. */
  function ParseAll<T>(lines: seq<seq<char>>, parse: seq<char> -> Option<T>): (r: Result<seq<T>, LoadError>)
    ensures r.Success? ==> |r.value| == |lines|
    ensures r.Success? ==> forall i :: 0 <= i < |lines| ==> parse(lines[i]) == Some(r.value[i])
    ensures r.Failure? ==> r.error.index < |lines| && parse(lines[r.error.index]).None?
    ensures r.Failure? ==> forall i :: 0 <= i < r.error.index ==> parse(lines[i]).Some?
  {
    if |lines| == 0 then Success([])
    else
      match parse(lines[0])
      case None => Failure(MalformedTransition(0))
      case Some(t) =>
        match ParseAll(lines[1..], parse)
        case Success(ts) => Success([t] + ts)
        case Failure(MalformedTransition(k)) => Failure(MalformedTransition(k + 1))
  }

  /** The rule lines of a description, parsed in file order; `ParseAll`
      states what the result is. */
  function ParseRules(lines: seq<seq<char>>): Result<seq<Transition>, LoadError> {
    ParseAll(lines, ParseRule)
  }

  /** Builds a machine from its three header labels and its rule lines. A
      header label is kept as the C string `strcmp` reads: its characters
      before the first terminator, if it holds one. */
  function Load(initial: seq<char>, accept: seq<char>, reject: seq<char>, lines: seq<seq<char>>): (r: Result<Machine, LoadError>)
    ensures r.Success? ==> r.value.initial == Content(initial) && r.value.accept == Content(accept) && r.value.reject == Content(reject)
    ensures r.Success? ==> |r.value.rules| == |lines| && forall i :: 0 <= i < |lines| ==> ParseRule(lines[i]) == Some(r.value.rules[i])
    ensures r.Failure? <==> ParseRules(lines).Failure?
    ensures r.Failure? ==> r.error == ParseRules(lines).error
    ensures r.Failure? ==> r.error.index < |lines| && ParseRule(lines[r.error.index]).None?
    ensures r.Failure? ==> forall i :: 0 <= i < r.error.index ==> ParseRule(lines[i]).Some?
  {
    match ParseRules(lines)
    case Success(rules) => Success(Machine(Content(initial), Content(accept), Content(reject), rules))
    case Failure(e) => Failure(e)
  }

  /** A loaded machine is labelled: the header labels are cut at their
      terminators and a `%[^,]` conversion never yields one. */
  lemma LoadedMachineIsLabelled(initial: seq<char>, accept: seq<char>, reject: seq<char>, lines: seq<seq<char>>)
    ensures Load(initial, accept, reject, lines).Success? ==> Labelled(Load(initial, accept, reject, lines).value)
  {
  }

  /** No loaded rule reads the blank: a `%c` conversion never yields the
      terminator, and the blank is the terminator. */
  lemma LoadedRulesNeverReadBlank(initial: seq<char>, accept: seq<char>, reject: seq<char>, lines: seq<seq<char>>)
    ensures Load(initial, accept, reject, lines).Success? ==>
      forall t :: t in Load(initial, accept, reject, lines).value.rules ==> t.read != BLANK
  {
  }

  /** A machine none of whose rules reads the blank, running with its head on
      a blank cell, goes to the reject state. */
  lemma BlankCellRejects(m: Machine, c: Config)
    requires forall t :: t in m.rules ==> t.read != BLANK
    requires !Halted(m, c) && c.tape.Read(c.head) == BLANK
    ensures Step(m, c).state == m.reject
  {
  }
}
