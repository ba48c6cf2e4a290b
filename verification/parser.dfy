/** `parse_line`: reads one rule line with the scan pattern
    `(%[^,],%c)->(%[^,],%c,%c)`. The scan succeeds only when all five fields
    are converted; the closing `)` after the last field is never looked at. */
module Parser {
  import opened Optional
  import opened CString

  /** One rule `(currentState,read)->(nextState,write,movement)`. */
  datatype Transition = Transition(
    currentState: seq<char>,
    read: char,
    nextState: seq<char>,
    write: char,
    movement: char)

  /** What a `%[^,]` conversion can store: a non-empty run holding neither a
      comma nor the terminator. */
  predicate StateField(s: seq<char>) {
    |s| > 0 && ',' !in s && NUL !in s
  }

  /** A rule the parser can produce. A `%c` conversion takes any character
      that is present, but never the terminator. */
  predicate WellFormed(t: Transition) {
    && StateField(t.currentState)
    && StateField(t.nextState)
    && t.read != NUL
    && t.write != NUL
    && t.movement != NUL
  }

  /** The text one group `<open>%[^,],%c` of the pattern consumes. */
  function GroupText(open: seq<char>, field: seq<char>, c: char): seq<char> {
    open + field + [','] + [c]
  }

  /** The text the scan consumes when it yields `t`: the line up to and
      including the movement character. */
  function RuleText(t: Transition): seq<char> {
    GroupText("(", t.currentState, t.read) + GroupText(")->(", t.nextState, t.write) + [','] + [t.movement]
  }

  /** `t` written out as a line of a description file. */
  function RuleLine(t: Transition): seq<char> {
    RuleText(t) + ")"
  }

  /** `s` holds `text` from position `i` on. */
  predicate HoldsAt(s: seq<char>, i: nat, text: seq<char>) {
    i + |text| <= |s| && forall k {:trigger text[k]} :: 0 <= k < |text| ==> s[i + k] == text[k]
  }

  /** Two texts held one after the other make up their concatenation. */
  lemma HoldsAtJoin(s: seq<char>, i: nat, a: seq<char>, b: seq<char>)
    requires HoldsAt(s, i, a) && HoldsAt(s, i + |a|, b)
    ensures HoldsAt(s, i, a + b)
  {
    forall k | 0 <= k < |a + b|
      ensures s[i + k] == (a + b)[k]
    {
      if k >= |a| {
        assert s[(i + |a|) + (k - |a|)] == b[k - |a|];
      }
    }
  }

  /** A concatenation held in `s` holds each of its parts. */
  lemma HoldsAtSplit(s: seq<char>, i: nat, a: seq<char>, b: seq<char>)
    requires HoldsAt(s, i, a + b)
    ensures HoldsAt(s, i, a) && HoldsAt(s, i + |a|, b)
  {
    forall k | 0 <= k < |a|
      ensures s[i + k] == a[k]
    {
      assert (a + b)[k] == a[k];
    }
    forall k | 0 <= k < |b|
      ensures s[(i + |a|) + k] == b[k]
    {
      assert s[i + (|a| + k)] == (a + b)[|a| + k];
    }
  }

  /** Holding a text from position 0 is being a prefix. */
  lemma HoldsAtStart(s: seq<char>, text: seq<char>)
    ensures HoldsAt(s, 0, text) <==> text <= s
  {
    if HoldsAt(s, 0, text) {
      assert s[..|text|] == text;
    }
  }

  /** The character the scan sees at position `i`; None at the end of the string. */
  function At(s: seq<char>, i: nat): (r: Option<char>)
    ensures r.Some? <==> i < |s| && s[i] != NUL
    ensures r.Some? ==> r.value == s[i]
  {
    if i < |s| && s[i] != NUL then Some(s[i]) else None
  }

  /** Ordinary characters of the pattern: each must be the next character. */
  function Literals(s: seq<char>, i: nat, lit: seq<char>): (r: Option<nat>)
    ensures r.Some? ==> r.value == i + |lit| && HoldsAt(s, i, lit)
    ensures NUL !in lit && HoldsAt(s, i, lit) ==> r == Some(i + |lit|)
    decreases |lit|
  {
    if i > |s| then None
    else if |lit| == 0 then Some(i)
    else if At(s, i) == Some(lit[0]) then
      assert lit == [lit[0]] + lit[1..];
      assert HoldsAt(s, i, [lit[0]]);
      assert HoldsAt(s, i, lit) ==> HoldsAt(s, i + 1, lit[1..]) by {
        if HoldsAt(s, i, lit) {
          HoldsAtSplit(s, i, [lit[0]], lit[1..]);
        }
      }
      var r := Literals(s, i + 1, lit[1..]);
      assert r.Some? ==> HoldsAt(s, i, lit) by {
        if r.Some? {
          HoldsAtJoin(s, i, [lit[0]], lit[1..]);
        }
      }
      r
    else
      assert HoldsAt(s, i, lit) ==> s[i + 0] == lit[0];
      None
  }

  /** The end of the longest run from `i` of characters that are neither a
      comma nor the terminator. */
  function RunEnd(s: seq<char>, i: nat): (j: nat)
    requires i <= |s|
    ensures i <= j <= |s|
    ensures forall k :: i <= k < j ==> s[k] != ',' && s[k] != NUL
    ensures j == |s| || s[j] == ',' || s[j] == NUL
    decreases |s| - i
  {
    if i < |s| && s[i] != ',' && s[i] != NUL then RunEnd(s, i + 1) else i
  }

  /** A `%[^,]` conversion: the longest non-empty run of non-comma characters. */
  function ScanSet(s: seq<char>, i: nat): (r: Option<(seq<char>, nat)>)
    ensures r.Some? ==> StateField(r.value.0) && r.value.1 == i + |r.value.0| && HoldsAt(s, i, r.value.0)
    ensures r.Some? ==> r.value.1 == |s| || s[r.value.1] == ',' || s[r.value.1] == NUL
    ensures r.None? ==> i >= |s| || s[i] == ',' || s[i] == NUL
  {
    if i > |s| then None
    else
      var j := RunEnd(s, i);
      if j == i then None
      else
        assert forall k :: 0 <= k < j - i ==> s[i + k] == s[i..j][k];
        Some((s[i..j], j))
  }

  /** A `%c` conversion: exactly one character, whatever it is. */
  function ScanChar(s: seq<char>, i: nat): (r: Option<(char, nat)>)
    ensures r.Some? <==> i < |s| && s[i] != NUL
    ensures r.Some? ==> r.value == (s[i], i + 1) && HoldsAt(s, i, [s[i]])
  {
    match At(s, i)
    case Some(c) => Some((c, i + 1))
    case None => None
  }

  /** What one group of the pattern yields: its field, its character, and the
      position after it. */
  datatype Group = Group(field: seq<char>, symbol: char, end: nat)

  /** One group of the pattern, `<open>%[^,],%c`, scanned from position `i`. */
  function ScanGroup(s: seq<char>, i: nat, open: seq<char>): (r: Option<Group>)
    ensures r.Some? ==> StateField(r.value.field) && r.value.symbol != NUL
    ensures r.Some? ==> r.value.end == i + |GroupText(open, r.value.field, r.value.symbol)|
    ensures r.Some? ==> HoldsAt(s, i, GroupText(open, r.value.field, r.value.symbol))
  {
    var i1 :- Literals(s, i, open);
    var (field, i2) :- ScanSet(s, i1);
    var i3 :- Literals(s, i2, [',']);
    var (c, i4) :- ScanChar(s, i3);
    HoldsAtJoin(s, i, open, field);
    HoldsAtJoin(s, i, open + field, [',']);
    HoldsAtJoin(s, i, open + field + [','], [c]);
    Some(Group(field, c, i4))
  }

  /** The whole scan; None unless all five conversions succeed. */
  function Scan(s: seq<char>): (r: Option<Transition>)
    ensures r.Some? ==> WellFormed(r.value) && RuleText(r.value) <= s
  {
    var g1 :- ScanGroup(s, 0, "(");
    var g2 :- ScanGroup(s, g1.end, ")->(");
    var i3 :- Literals(s, g2.end, [',']);
    var (movement, i4) :- ScanChar(s, i3);
    RuleTextFromGroups(s, g1, g2, movement);
    Some(Transition(g1.field, g1.symbol, g2.field, g2.symbol, movement))
  }

  /** Two groups, a comma and a character held one after the other spell out
      the rule text of the rule they make. */
  lemma RuleTextFromGroups(s: seq<char>, g1: Group, g2: Group, movement: char)
    requires g1.end == |GroupText("(", g1.field, g1.symbol)| && HoldsAt(s, 0, GroupText("(", g1.field, g1.symbol))
    requires g2.end == g1.end + |GroupText(")->(", g2.field, g2.symbol)|
    requires HoldsAt(s, g1.end, GroupText(")->(", g2.field, g2.symbol))
    requires HoldsAt(s, g2.end, [',']) && HoldsAt(s, g2.end + 1, [movement])
    ensures RuleText(Transition(g1.field, g1.symbol, g2.field, g2.symbol, movement)) <= s
  {
    var text1 := GroupText("(", g1.field, g1.symbol);
    var text2 := GroupText(")->(", g2.field, g2.symbol);
    HoldsAtJoin(s, 0, text1, text2);
    HoldsAtJoin(s, 0, text1 + text2, [',']);
    HoldsAtJoin(s, 0, text1 + text2 + [','], [movement]);
    HoldsAtStart(s, RuleText(Transition(g1.field, g1.symbol, g2.field, g2.symbol, movement)));
  }

  /** `parse_line`: nothing for a NULL line or a length below 3, whatever the
      line holds; otherwise the result of the scan. */
  function ParseLine(line: Option<seq<char>>, len: nat): (r: Option<Transition>)
    ensures line.None? || len < 3 ==> r.None?
    ensures r.Some? ==> WellFormed(r.value) && RuleText(r.value) <= line.value
  {
    if line.None? || len < 3 then None else Scan(line.value)
  }

  /** Ordinary characters that are present are matched. */
  lemma LiteralsAt(s: seq<char>, i: nat, lit: seq<char>)
    requires NUL !in lit && HoldsAt(s, i, lit)
    ensures Literals(s, i, lit) == Some(i + |lit|)
  {
  }

  /** A `%[^,]` conversion takes exactly a state field that a comma ends. */
  lemma ScanSetAt(s: seq<char>, i: nat, field: seq<char>)
    requires StateField(field) && HoldsAt(s, i, field) && HoldsAt(s, i + |field|, [','])
    ensures ScanSet(s, i) == Some((field, i + |field|))
  {
    var j := i + |field|;
    assert [','][0] == ',';
    forall k | i <= k < j
      ensures s[k] == field[k - i]
    {
      assert s[i + (k - i)] == field[k - i];
    }
    assert RunEnd(s, i) == j;
    assert s[i..j] == field;
  }

  /** A group scan reads back the field and character it was written from. */
  lemma ScanGroupText(s: seq<char>, i: nat, open: seq<char>, field: seq<char>, c: char)
    requires NUL !in open && StateField(field) && c != NUL
    requires HoldsAt(s, i, GroupText(open, field, c))
    ensures ScanGroup(s, i, open).Some?
    ensures ScanGroup(s, i, open).value == Group(field, c, i + |GroupText(open, field, c)|)
  {
    HoldsAtSplit(s, i, open + field + [','], [c]);
    HoldsAtSplit(s, i, open + field, [',']);
    HoldsAtSplit(s, i, open, field);
    var i1 := i + |open|;
    var i2 := i1 + |field|;
    assert Literals(s, i, open) == Some(i1);
    ScanSetAt(s, i1, field);
    LiteralsAt(s, i2, [',']);
    assert [c][0] == c;
  }

  /** A rule text held at the start of `s` is its two groups, a comma and
      the movement character, held one after the other. */
  lemma RuleTextParts(s: seq<char>, t: Transition)
    requires RuleText(t) <= s
    ensures var text1 := GroupText("(", t.currentState, t.read);
      var text2 := GroupText(")->(", t.nextState, t.write);
      && HoldsAt(s, 0, text1) && HoldsAt(s, |text1|, text2)
      && HoldsAt(s, |text1| + |text2|, [',']) && HoldsAt(s, |text1| + |text2| + 1, [t.movement])
  {
    var text1 := GroupText("(", t.currentState, t.read);
    var text2 := GroupText(")->(", t.nextState, t.write);
    HoldsAtStart(s, RuleText(t));
    HoldsAtSplit(s, 0, text1 + text2 + [','], [t.movement]);
    HoldsAtSplit(s, 0, text1 + text2, [',']);
    HoldsAtSplit(s, 0, text1, text2);
  }

  /** A `%c` conversion takes any character other than NUL. */
  lemma ScanCharAt(s: seq<char>, i: nat, c: char)
    requires c != NUL && HoldsAt(s, i, [c])
    ensures ScanChar(s, i).Some? && ScanChar(s, i).value == (c, i + 1)
  {
    assert [c][0] == c;
  }

  /** The scan reads `t` from any text that starts with `t`'s rule text. */
  lemma ScanRuleText(s: seq<char>, t: Transition)
    requires WellFormed(t) && RuleText(t) <= s
    ensures Scan(s).Some? && Scan(s).value == t
  {
    RuleTextParts(s, t);
    var n1 := |GroupText("(", t.currentState, t.read)|;
    var n2 := n1 + |GroupText(")->(", t.nextState, t.write)|;
    ScanGroupText(s, 0, "(", t.currentState, t.read);
    ScanGroupText(s, n1, ")->(", t.nextState, t.write);
    LiteralsAt(s, n2, [',']);
    ScanCharAt(s, n2 + 1, t.movement);
    ScanFromGroups(s, Group(t.currentState, t.read, n1), Group(t.nextState, t.write, n2), t.movement);
  }

  /** The scan's last steps, once both groups are read. */
  lemma ScanFromGroups(s: seq<char>, g1: Group, g2: Group, movement: char)
    requires ScanGroup(s, 0, "(").Some? && ScanGroup(s, 0, "(").value == g1
    requires ScanGroup(s, g1.end, ")->(").Some? && ScanGroup(s, g1.end, ")->(").value == g2
    requires Literals(s, g2.end, [',']).Some? && Literals(s, g2.end, [',']).value == g2.end + 1
    requires ScanChar(s, g2.end + 1).Some? && ScanChar(s, g2.end + 1).value == (movement, g2.end + 2)
    ensures Scan(s).Some?
    ensures Scan(s).value == Transition(g1.field, g1.symbol, g2.field, g2.symbol, movement)
  {
  }

  /** A line parses to `t` exactly when the length passes the guard, `t` is
      well formed and the line starts with `t`'s rule text: no partial rule is
      ever produced and nothing after the movement character matters. */
  lemma ParseLineExactly(line: seq<char>, len: nat, t: Transition)
    ensures ParseLine(Some(line), len) == Some(t) <==> len >= 3 && WellFormed(t) && RuleText(t) <= line
  {
    if len >= 3 && WellFormed(t) && RuleText(t) <= line {
      ScanRuleText(line, t);
    }
  }

  /** A rule written out as a line reads back as the same rule. */
  lemma RuleLineRoundTrip(t: Transition)
    requires WellFormed(t)
    ensures ParseLine(Some(RuleLine(t)), |RuleLine(t)|) == Some(t)
  {
    ParseLineExactly(RuleLine(t), |RuleLine(t)|, t);
  }

  /** The closing parenthesis is not checked: any text, or none, may stand in
      its place. */
  lemma ClosingParenUnchecked(t: Transition, tail: seq<char>)
    requires WellFormed(t)
    ensures ParseLine(Some(RuleText(t) + tail), |RuleText(t) + tail|) == Some(t)
  {
    ParseLineExactly(RuleText(t) + tail, |RuleText(t) + tail|, t);
  }
}
