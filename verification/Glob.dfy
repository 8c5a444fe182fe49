/**
 `utils_string_glob_match` of `utils_string.c`: an iterative matcher that backtracks only to
 the last star, proved equal to a declarative matcher on the tokens of the pattern.

 Characters are the signed values of a C `char`.  The class scanner of the source never
 advances past a `-` that has no left end, so a run can also fail to return.  And the source
 looks at the byte after the pattern, `after`, whenever the pattern is used up before the text:
 if that byte passes, the length left of the pattern wraps and the run goes on past the
 pattern.  The model reports both as outcomes of their own and characterizes them exactly.
 */
module Glob {

  type Char = c: int | -128 <= c < 128

  const NUL: Char := 0
  const STAR: Char := 42
  const DASH: Char := 45
  const QUESTION: Char := 63
  const OPEN: Char := 91
  const BACKSLASH: Char := 92
  const CLOSE: Char := 93
  const CARET: Char := 94

  // ----- Patterns as tokens -----

  datatype Item = One(c: Char) | Range(lo: int, hi: Char)

  datatype Token =
    | Literal(c: Char)
    | AnyOne
    | Star
    | Class(negated: bool, items: seq<Item>)
    | Open(negated: bool, items: seq<Item>)   // a class without its closing bracket
    | Never      // an opening bracket or a backslash at the end
    | Endless    // a class whose scan does not end

  /** What the text after `[` or `[^` says: a closed class and where it ends, or no class at all. */
  datatype ClassEnd = Closed(items: seq<Item>, next: nat) | Unclosed(items: seq<Item>) | Loops {
    function After(items0: seq<Item>): ClassEnd {
      match this
      case Closed(items, next) => Closed(items0 + items, next)
      case Unclosed(items) => Unclosed(items0 + items)
      case Loops => Loops
    }
  }

  /**
   The class body from `i` on.  `prev` is the last single character, or -1.  The right end of
   a range is read again as a character of its own, and `prev` is also -1 after the character
   -1, so a dash there has no left end either.
   */
  function ClassBody(p: seq<Char>, i: nat, prev: int): (e: ClassEnd)
    requires i <= |p|
    ensures e.Closed? ==> i < e.next <= |p|
    decreases |p| - i
  {
    if i == |p| then Unclosed([])
    else if p[i] == CLOSE then Closed([], i + 1)
    else if p[i] == DASH then
      if prev == -1 then Loops
      else if i + 1 == |p| then Unclosed([])
      else ClassBody(p, i + 1, prev).After([Range(prev, p[i + 1])])
    else if p[i] == BACKSLASH then
      if i + 1 == |p| then Unclosed([])
      else ClassBody(p, i + 2, p[i + 1]).After([One(p[i + 1])])
    else ClassBody(p, i + 1, p[i]).After([One(p[i])])
  }

  function ClassToken(p: seq<Char>, i: nat, negated: bool): (r: (Token, nat))
    requires i <= |p|
    ensures i <= r.1 <= |p|
  {
    match ClassBody(p, i, -1)
    case Closed(items, next) => (Class(negated, items), next)
    case Unclosed(items) => (Open(negated, items), |p|)
    case Loops => (Endless, |p|)
  }

  /** The token at `i` and where the next one starts. */
  function Lex(p: seq<Char>, i: nat): (r: (Token, nat))
    requires i < |p|
    ensures i < r.1 <= |p|
  {
    if p[i] == STAR then (Star, i + 1)
    else if p[i] == QUESTION then (AnyOne, i + 1)
    else if p[i] == OPEN then
      if i + 1 == |p| then (Never, |p|)
      else if p[i + 1] == CARET then ClassToken(p, i + 2, true)
      else ClassToken(p, i + 1, false)
    else if p[i] == BACKSLASH then
      if i + 1 == |p| then (Never, |p|) else (Literal(p[i + 1]), i + 2)
    else (Literal(p[i]), i + 1)
  }

  function Tokens(p: seq<Char>, i: nat): seq<Token>
    requires i <= |p|
    decreases |p| - i
  {
    if i == |p| then [] else [Lex(p, i).0] + Tokens(p, Lex(p, i).1)
  }

  // ----- The declarative matcher -----

  predicate ItemAccepts(item: Item, c: Char) {
    match item
    case One(d) => c == d
    case Range(lo, hi) => lo <= c <= hi
  }

  predicate SomeItemAccepts(items: seq<Item>, c: Char) {
    exists i :: 0 <= i < |items| && ItemAccepts(items[i], c)
  }

  predicate TokenAccepts(t: Token, c: Char) {
    match t
    case Literal(d) => c == d
    case AnyOne => true
    case Class(negated, items) => negated != SomeItemAccepts(items, c)
    case _ => false
  }

  /**
   What is asked of a pattern: that it match the whole text, that its endless class come up with
   text left, or that the byte after it pass with text left.
   */
  datatype Goal = Whole | Stuck | Over(after: Char)

  /** The byte after the pattern, read as if it were a token, lets the run go on. */
  predicate RunsPast(after: Char, c: Char) {
    after == STAR || after == QUESTION || after == BACKSLASH || (after == c && after != OPEN)
  }

  ghost predicate Accepts(g: Goal, ts: seq<Token>, s: seq<Char>)
    decreases |ts|
  {
    if ts == [] then
      match g
      case Whole => s == []
      case Stuck => false
      case Over(after) => s != [] && RunsPast(after, s[0])
    else if ts[0].Star? then exists k :: 0 <= k <= |s| && Accepts(g, ts[1..], s[k..])
    else if ts[0].Endless? then g.Stuck? && s != []
    else if ts[0].Open? then
      g == Over(CLOSE) && s != [] && TokenAccepts(Class(ts[0].negated, ts[0].items), s[0])
    else s != [] && TokenAccepts(ts[0], s[0]) && Accepts(g, ts[1..], s[1..])
  }

  ghost predicate Matches(p: seq<Char>, s: seq<Char>) { Accepts(Whole, Tokens(p, 0), s) }

  ghost predicate Hangs(p: seq<Char>, s: seq<Char>) { Accepts(Stuck, Tokens(p, 0), s) }

  ghost predicate Overruns(p: seq<Char>, s: seq<Char>, after: Char) { Accepts(Over(after), Tokens(p, 0), s) }

  // ----- Facts about stars and suffixes -----

  lemma StarSplit(g: Goal, ts: seq<Token>, s: seq<Char>, i: nat)
    requires ts != [] && ts[0].Star? && i <= |s|
    ensures Accepts(g, ts, s[i..]) <==> exists k :: i <= k <= |s| && Accepts(g, ts[1..], s[k..])
  {
    if Accepts(g, ts, s[i..]) {
      var k :| 0 <= k <= |s[i..]| && Accepts(g, ts[1..], s[i..][k..]);
      assert s[i..][k..] == s[i + k..];
    }
    if k :| i <= k <= |s| && Accepts(g, ts[1..], s[k..]) {
      assert s[i..][k - i..] == s[k..];
    }
  }

  lemma StepSplit(g: Goal, ts: seq<Token>, s: seq<Char>, i: nat)
    requires ts != [] && !ts[0].Star? && !ts[0].Endless? && !ts[0].Open? && i <= |s|
    ensures Accepts(g, ts, s[i..]) <==> i < |s| && TokenAccepts(ts[0], s[i]) && Accepts(g, ts[1..], s[i + 1..])
  {
    if i < |s| {
      assert s[i..][1..] == s[i + 1..];
    }
  }

  ghost predicate AllStars(ts: seq<Token>) {
    forall t :: t in ts ==> t.Star?
  }

  lemma {:induction false} NothingLeft(ts: seq<Token>, s: seq<Char>)
    requires s == []
    ensures forall g: Goal :: !g.Whole? ==> !Accepts(g, ts, s)
    ensures Accepts(Whole, ts, s) <==> AllStars(ts)
    decreases |ts|
  {
    if ts != [] {
      NothingLeft(ts[1..], s);
      assert forall k :: 0 <= k <= |s| ==> s[k..] == s;
      assert s[0..] == s;
      assert ts == [ts[0]] + ts[1..];
    }
  }

  // ----- The state of the search -----

  /** The remembered star: the pattern after it, and the text at which that pattern was last tried. */
  datatype Backup = NoBackup | Backup(pattern: nat, text: nat)

  /** The pattern after the remembered star matches at some later place. */
  ghost predicate Later(g: Goal, p: seq<Char>, s: seq<Char>, b: Backup)
    requires b.Backup? ==> b.pattern <= |p|
  {
    b.Backup? && exists k :: b.text < k <= |s| && Accepts(g, Tokens(p, b.pattern), s[k..])
  }

  predicate Asked(g: Goal, after: Char) { g.Over? ==> g.after == after }

  /** The answer is at the current place, or after the remembered star tried further on. */
  ghost predicate Tracks(p: seq<Char>, s: seq<Char>, pi: nat, si: nat, b: Backup, after: Char)
    requires pi <= |p| && si <= |s|
    requires b.Backup? ==> b.pattern <= |p|
  {
    forall g :: Asked(g, after) ==> (Accepts(g, Tokens(p, 0), s) <==> Accepts(g, Tokens(p, pi), s[si..]) || Later(g, p, s, b))
  }

  /** Since the remembered star, each token has used up exactly one character. */
  ghost predicate InStep(p: seq<Char>, s: seq<Char>, pi: nat, si: nat, b: Backup)
    requires pi <= |p| && si <= |s|
    requires b.Backup? ==> b.pattern <= |p|
  {
    b.Backup? ==>
      && b.text <= si
      && forall g, k :: b.text <= k <= |s| && Accepts(g, Tokens(p, b.pattern), s[k..]) ==>
           k + (si - b.text) <= |s| && Accepts(g, Tokens(p, pi), s[k + (si - b.text)..])
  }

  ghost predicate Inv(p: seq<Char>, s: seq<Char>, pi: nat, si: nat, b: Backup, after: Char) {
    && pi <= |p| && si <= |s|
    && (b.Backup? ==> 1 <= b.pattern <= pi)
    && Tracks(p, s, pi, si, b, after)
    && InStep(p, s, pi, si, b)
  }

  lemma Start(p: seq<Char>, s: seq<Char>, after: Char)
    ensures Inv(p, s, 0, 0, NoBackup, after)
  {
    assert s[0..] == s;
  }

  lemma InStepAt(g: Goal, p: seq<Char>, s: seq<Char>, pi: nat, si: nat, b: Backup, k: nat)
    requires pi <= |p| && si <= |s| && b.Backup? && b.pattern <= |p| && InStep(p, s, pi, si, b)
    requires b.text <= k <= |s| && Accepts(g, Tokens(p, b.pattern), s[k..])
    ensures b.text <= si && k + (si - b.text) <= |s| && Accepts(g, Tokens(p, pi), s[k + (si - b.text)..])
  {
    hide Accepts, Tokens;
  }

  lemma StarToken(p: seq<Char>, pi: nat)
    requires pi < |p| && p[pi] == STAR
    ensures Tokens(p, pi) != [] && Tokens(p, pi)[0].Star?
  {
  }

  /** At a new star the old one can be forgotten: whatever it could still find, the new star finds from here. */
  lemma ForgetOldStar(g: Goal, p: seq<Char>, s: seq<Char>, pi: nat, si: nat, b: Backup, after: Char)
    requires Inv(p, s, pi, si, b, after) && pi < |p| && p[pi] == STAR
    requires Later(g, p, s, b)
    ensures Accepts(g, Tokens(p, pi), s[si..])
  {
    hide Accepts, Tokens, Lex, InStep, Tracks;
    var ts := Tokens(p, pi);
    StarToken(p, pi);
    var k :| b.text < k <= |s| && Accepts(g, Tokens(p, b.pattern), s[k..]);
    InStepAt(g, p, s, pi, si, b, k);
    StarSplit(g, ts, s, k + (si - b.text));
    StarSplit(g, ts, s, si);
  }

  lemma TakeStar(p: seq<Char>, s: seq<Char>, pi: nat, si: nat, b: Backup, after: Char)
    requires Inv(p, s, pi, si, b, after) && pi < |p| && p[pi] == STAR && si < |s|
    ensures Inv(p, s, pi + 1, si, Backup(pi + 1, si), after)
  {
    var ts := Tokens(p, pi);
    assert ts[1..] == Tokens(p, pi + 1);
    var b' := Backup(pi + 1, si);
    forall g | Asked(g, after)
      ensures Accepts(g, Tokens(p, 0), s) <==> Accepts(g, Tokens(p, pi + 1), s[si..]) || Later(g, p, s, b')
    {
      if Later(g, p, s, b) { ForgetOldStar(g, p, s, pi, si, b, after); }
      StarSplit(g, ts, s, si);
    }
  }

  /** A token that is neither a star nor endless accepts the current character. */
  lemma TakeChar(p: seq<Char>, s: seq<Char>, pi: nat, si: nat, b: Backup, after: Char)
    requires Inv(p, s, pi, si, b, after) && pi < |p| && si < |s|
    requires var t := Lex(p, pi).0; p[pi] != STAR && !t.Endless? && TokenAccepts(t, s[si])
    ensures Inv(p, s, Lex(p, pi).1, si + 1, b, after)
  {
    var ts, pj := Tokens(p, pi), Lex(p, pi).1;
    assert ts[1..] == Tokens(p, pj);
    forall g
      ensures Accepts(g, ts, s[si..]) <==> Accepts(g, Tokens(p, pj), s[si + 1..])
    {
      StepSplit(g, ts, s, si);
    }
    if b.Backup? {
      forall g, k | b.text <= k <= |s| && Accepts(g, Tokens(p, b.pattern), s[k..])
        ensures k + (si + 1 - b.text) <= |s| && Accepts(g, Tokens(p, pj), s[k + (si + 1 - b.text)..])
      {
        StepSplit(g, ts, s, k + (si - b.text));
      }
    }
  }

  /** The current place has failed for good. */
  ghost predicate Fails(p: seq<Char>, s: seq<Char>, pi: nat, si: nat, after: Char)
    requires pi <= |p| && si <= |s|
  {
    forall g :: Asked(g, after) ==> !Accepts(g, Tokens(p, pi), s[si..])
  }

  lemma Retry(p: seq<Char>, s: seq<Char>, pi: nat, si: nat, b: Backup, after: Char)
    requires Inv(p, s, pi, si, b, after) && si < |s| && Fails(p, s, pi, si, after)
    ensures b.NoBackup? ==> !Matches(p, s) && !Hangs(p, s) && !Overruns(p, s, after)
    ensures b.Backup? ==> Inv(p, s, b.pattern, b.text + 1, b.(text := b.text + 1), after)
  {
    hide Accepts, Tokens;
    if b.Backup? {
      hide Later;
      forall g | Asked(g, after)
        ensures Accepts(g, Tokens(p, 0), s) <==>
                Accepts(g, Tokens(p, b.pattern), s[b.text + 1..]) || Later(g, p, s, b.(text := b.text + 1))
      {
        LaterFrom(g, p, s, b);
      }
    }
  }

  lemma LaterFrom(g: Goal, p: seq<Char>, s: seq<Char>, b: Backup)
    requires b.Backup? && b.pattern <= |p| && b.text < |s|
    ensures Later(g, p, s, b) <==>
            Accepts(g, Tokens(p, b.pattern), s[b.text + 1..]) || Later(g, p, s, b.(text := b.text + 1))
  {
    hide Accepts, Tokens;
  }

  /** When the text is used up only the stars that remain can be passed, and the remembered star has nowhere to go. */
  lemma TextUsedUp(p: seq<Char>, s: seq<Char>, pi: nat, b: Backup, after: Char)
    requires Inv(p, s, pi, |s|, b, after)
    ensures !Hangs(p, s) && !Overruns(p, s, after)
    ensures Matches(p, s) <==> Accepts(Whole, Tokens(p, pi), [])
  {
    assert s[|s|..] == [];
    NothingLeft(Tokens(p, pi), []);
    forall g ensures !Later(g, p, s, b) {}
  }

  /** The run goes on past the pattern when it is here with the character `c`. */
  predicate OverHere(p: seq<Char>, pi: nat, c: Char, after: Char)
    requires pi <= |p|
  {
    if pi == |p| then RunsPast(after, c)
    else var t := Lex(p, pi).0; t.Open? && after == CLOSE && TokenAccepts(Class(t.negated, t.items), c)
  }

  lemma FailsAt(p: seq<Char>, s: seq<Char>, pi: nat, si: nat, after: Char)
    requires pi <= |p| && si < |s| && !OverHere(p, pi, s[si], after)
    requires pi < |p| ==> var t := Lex(p, pi).0; p[pi] != STAR && !t.Endless? && !TokenAccepts(t, s[si])
    ensures Fails(p, s, pi, si, after)
  {
    forall g | Asked(g, after) ensures !Accepts(g, Tokens(p, pi), s[si..]) {
      if pi < |p| && !Lex(p, pi).0.Open? { StepSplit(g, Tokens(p, pi), s, si); }
    }
  }

  lemma OverrunHere(p: seq<Char>, s: seq<Char>, pi: nat, si: nat, b: Backup, after: Char)
    requires Inv(p, s, pi, si, b, after) && si < |s| && OverHere(p, pi, s[si], after)
    ensures Overruns(p, s, after)
  {
    assert Accepts(Over(after), Tokens(p, pi), s[si..]);
  }

  lemma EndlessHere(p: seq<Char>, s: seq<Char>, pi: nat, si: nat, b: Backup, after: Char)
    requires Inv(p, s, pi, si, b, after) && pi < |p| && si < |s| && Lex(p, pi).0.Endless?
    ensures Hangs(p, s)
  {
    assert Accepts(Stuck, Tokens(p, pi), s[si..]);
  }

  // ----- The loops of the source -----

  /** The character the source reads at `i`; the pattern is followed by the byte `after`. */
  function At(p: seq<Char>, i: nat, after: Char): Char
    requires i <= |p|
  {
    if i < |p| then p[i] else after
  }

  /** The scan of a class body for the character `c`. */
  method ScanClass(p: seq<Char>, start: nat, c: Char) returns (loops: bool, i: nat, matched: bool)
    requires start <= |p|
    ensures i <= |p|
    ensures loops <==> ClassBody(p, start, -1).Loops?
    ensures ClassBody(p, start, -1).Closed? ==> i < |p| && p[i] == CLOSE && ClassBody(p, start, -1).next == i + 1
    ensures ClassBody(p, start, -1).Unclosed? ==> i == |p|
    ensures !loops ==> (matched <==> SomeItemAccepts(ClassBody(p, start, -1).items, c))
  {
    loops, i, matched := false, start, false;
    var prev: int := -1;
    ghost var items: seq<Item> := [];
    while i < |p| && p[i] != CLOSE
      invariant start <= i <= |p|
      invariant ClassBody(p, start, -1) == ClassBody(p, i, prev).After(items)
      invariant matched <==> SomeItemAccepts(items, c)
      decreases |p| - i
    {
      var item: Item;
      if p[i] == DASH {
        if prev == -1 {
          loops := true;
          return;
        }
        i := i + 1;
        if i == |p| { break; }
        item := Range(prev, p[i]);
        matched := matched || (prev <= c <= p[i]);
      } else {
        if p[i] == BACKSLASH {
          i := i + 1;
          if i == |p| { break; }
        }
        item := One(p[i]);
        matched := matched || c == p[i];
        prev := p[i];
        i := i + 1;
      }
      AnotherItem(items, item, c);
      AfterAfter(ClassBody(p, i, prev), items, item);
      items := items + [item];
    }
    assert items + [] == items;
  }

  lemma AnotherItem(items: seq<Item>, item: Item, c: Char)
    ensures SomeItemAccepts(items + [item], c) <==> SomeItemAccepts(items, c) || ItemAccepts(item, c)
  {
    var more := items + [item];
    if SomeItemAccepts(items, c) {
      var i :| 0 <= i < |items| && ItemAccepts(items[i], c);
      assert more[i] == items[i];
    }
    if ItemAccepts(item, c) {
      assert more[|items|] == item;
    }
  }

  lemma AfterAfter(e: ClassEnd, items: seq<Item>, item: Item)
    ensures e.After([item]).After(items) == e.After(items + [item])
  {
    if !e.Loops? {
      assert items + ([item] + e.items) == (items + [item]) + e.items;
    }
  }

  datatype Outcome = Answer(matched: bool) | NoReturn | Overrun

  /** What a call does, for every pattern, text and byte after the pattern. */
  ghost predicate Verdict(p: seq<Char>, s: seq<Char>, after: Char, r: Outcome) {
    if p == [] || s == [] then r == Answer(false)
    else if p == [STAR] || p == [QUESTION] then r == Answer(true)
    else
      match r
      case Answer(matched) => !Hangs(p, s) && !Overruns(p, s, after) && (matched <==> Matches(p, s))
      case NoReturn => Hangs(p, s)
      case Overrun => Overruns(p, s, after)
  }

  datatype Turn = Pass(next: nat) | Fail | Loop | Past

  /** One non-star token against the current character. */
  method TryToken(p: seq<Char>, pi: nat, c: Char, after: Char) returns (r: Turn)
    requires pi <= |p| && At(p, pi, after) != STAR
    ensures r.Loop? <==> pi < |p| && Lex(p, pi).0.Endless?
    ensures r.Past? <==> OverHere(p, pi, c, after)
    ensures r.Pass? <==> pi < |p| && TokenAccepts(Lex(p, pi).0, c)
    ensures r.Pass? ==> r.next == Lex(p, pi).1
  {
    var pj := pi;
    if At(p, pj, after) == QUESTION { return if pj < |p| then Pass(pj + 1) else Past; }
    if At(p, pj, after) == OPEN {
      if |p| - pj <= 1 { return Fail; }
      pj := pj + 1;
      var reverse := false;
      if At(p, pj, after) == CARET {
        reverse := true;
        pj := pj + 1;
      }
      var loops, matched;
      loops, pj, matched := ScanClass(p, pj, c);
      if loops { return Loop; }
      if At(p, pj, after) != CLOSE { return Fail; }
      if reverse { matched := !matched; }
      if !matched { return Fail; }
      return if pj < |p| then Pass(pj + 1) else Past;
    }
    if At(p, pj, after) == BACKSLASH {
      if pj == |p| { return Past; }
      pj := pj + 1;
      if pj == |p| { return Fail; }
    }
    if At(p, pj, after) != c { return Fail; }
    return if pj < |p| then Pass(pj + 1) else Past;
  }

  /** The stars that may follow when the text is used up. */
  method PassStars(p: seq<Char>, start: nat) returns (matched: bool)
    requires start <= |p|
    ensures matched <==> Accepts(Whole, Tokens(p, start), [])
  {
    hide Accepts, Tokens;
    var pi := start;
    while pi < |p| && p[pi] == STAR
      invariant pi <= |p|
      invariant Accepts(Whole, Tokens(p, start), []) <==> Accepts(Whole, Tokens(p, pi), [])
    {
      PassStar(p, pi);
      pi := pi + 1;
    }
    PatternLeft(p, pi);
    return pi == |p|;
  }

  method GlobMatch(s: seq<Char>, p: seq<Char>, after: Char) returns (r: Outcome)
    ensures Verdict(p, s, after, r)
  {
    hide Tracks, InStep, Hangs, Matches, Overruns, Accepts, Tokens, Lex, TokenAccepts, OverHere;
    if |p| == 0 || |s| == 0 { return Answer(false); }
    if |p| == 1 && (p[0] == STAR || p[0] == QUESTION) { return Answer(true); }
    var si: nat, pi: nat := 0, 0;
    var b := NoBackup;
    Start(p, s, after);
    while si < |s|
      invariant Inv(p, s, pi, si, b, after)
      decreases |p| - (if b.Backup? then b.pattern else 0), |s| - (if b.Backup? then b.text else 0), |s| - si
    {
      if At(p, pi, after) == STAR {
        if pi == |p| {
          StarAfter(p, s[si], after);
          OverrunHere(p, s, pi, si, b, after);
          return Overrun;
        }
        TakeStar(p, s, pi, si, b, after);
        pi := pi + 1;
        b := Backup(pi, si);
        continue;
      }
      var turn := TryToken(p, pi, s[si], after);
      match turn
      case Loop =>
        EndlessHere(p, s, pi, si, b, after);
        return NoReturn;
      case Past =>
        OverrunHere(p, s, pi, si, b, after);
        return Overrun;
      case Pass(next) =>
        TakeChar(p, s, pi, si, b, after);
        si, pi := si + 1, next;
      case Fail =>
        FailsAt(p, s, pi, si, after);
        Retry(p, s, pi, si, b, after);
        if b.NoBackup? { return Answer(false); }
        b := b.(text := b.text + 1);
        si, pi := b.text, b.pattern;
    }
    TextUsedUp(p, s, pi, b, after);
    var matched := PassStars(p, pi);
    return Answer(matched);
  }

  lemma StarAfter(p: seq<Char>, c: Char, after: Char)
    requires after == STAR
    ensures OverHere(p, |p|, c, after)
  {
  }

  lemma PassStar(p: seq<Char>, pi: nat)
    requires pi < |p| && p[pi] == STAR
    ensures Accepts(Whole, Tokens(p, pi), []) <==> Accepts(Whole, Tokens(p, pi + 1), [])
  {
    var none: seq<Char> := [];
    assert Tokens(p, pi)[1..] == Tokens(p, pi + 1);
    StarSplit(Whole, Tokens(p, pi), none, 0);
    assert none[0..] == none;
  }

  lemma PatternLeft(p: seq<Char>, pi: nat)
    requires pi <= |p| && (pi < |p| ==> p[pi] != STAR)
    ensures Accepts(Whole, Tokens(p, pi), []) <==> pi == |p|
  {
  }

  // ----- A call has one outcome -----

  /** An endless class takes the rest of the pattern, so that a pattern that can hang has no end to run past. */
  lemma {:induction false} NoBoth(p: seq<Char>, i: nat, s: seq<Char>, s': seq<Char>, after: Char)
    requires i <= |p| && Accepts(Stuck, Tokens(p, i), s)
    ensures !Accepts(Over(after), Tokens(p, i), s')
    decreases |p| - i
  {
    var ts, pj := Tokens(p, i), Lex(p, i).1;
    assert ts[1..] == Tokens(p, pj);
    if ts[0].Star? {
      var k :| 0 <= k <= |s| && Accepts(Stuck, ts[1..], s[k..]);
      forall j | 0 <= j <= |s'| ensures !Accepts(Over(after), ts[1..], s'[j..]) {
        NoBoth(p, pj, s[k..], s'[j..], after);
      }
    } else if !ts[0].Endless? && s' != [] {
      NoBoth(p, pj, s[1..], s'[1..], after);
    }
  }

  /** Pattern, text and the byte after the pattern determine what a call does. */
  lemma OneVerdict(p: seq<Char>, s: seq<Char>, after: Char, r: Outcome, r': Outcome)
    requires Verdict(p, s, after, r) && Verdict(p, s, after, r')
    ensures r == r'
  {
    hide Accepts, Tokens;
    if Hangs(p, s) { NoBoth(p, 0, s, s, after); }
  }

  // ----- When the call agrees with the declarative matcher -----

  /** From `i` on the pattern is stars only. */
  predicate OnlyStars(p: seq<Char>, i: nat) {
    forall j :: i <= j < |p| ==> p[j] == STAR
  }

  lemma {:induction false} OnlyStarsTokens(p: seq<Char>, i: nat)
    requires i <= |p|
    ensures AllStars(Tokens(p, i)) <==> OnlyStars(p, i)
    decreases |p| - i
  {
    if i < |p| {
      assert Lex(p, i).0 in Tokens(p, i);
      if p[i] == STAR {
        OnlyStarsTokens(p, i + 1);
      }
    }
  }

  lemma OneCharacter(p: seq<Char>, s: seq<Char>, after: Char)
    requires p == [QUESTION]
    ensures Matches(p, s) <==> |s| == 1
    ensures !Hangs(p, s) && (|s| == 1 ==> !Overruns(p, s, after))
  {
    assert Lex(p, 0) == (AnyOne, 1);
    assert Tokens(p, 1) == [];
    var ts := Tokens(p, 0);
    assert ts == [AnyOne] + Tokens(p, 1);
    assert ts[1..] == [];
    assert s[0..] == s;
    forall g: Goal ensures Accepts(g, ts, s) <==> s != [] && Accepts(g, [], s[1..]) { StepSplit(g, ts, s, 0); }
  }

  lemma LoneStar(p: seq<Char>, s: seq<Char>)
    requires p == [STAR]
    ensures Matches(p, s)
  {
    assert Tokens(p, 0) == [Star];
    assert [Star][1..] == [];
    assert s[|s|..] == [];
  }

  lemma NothingLeftOver(p: seq<Char>, after: Char)
    ensures !Hangs(p, []) && !Overruns(p, [], after) && (Matches(p, []) <==> OnlyStars(p, 0))
  {
    NothingLeft(Tokens(p, 0), []);
    OnlyStarsTokens(p, 0);
  }

  /**
   A call returns what the declarative matcher says unless it does not return or runs past the
   pattern, or the text is empty and the pattern only stars (the source answers false), or the
   pattern is a single `?` and the text is longer than one character (the source answers true).
   */
  lemma AgreesExactly(p: seq<Char>, s: seq<Char>, after: Char, r: Outcome)
    requires Verdict(p, s, after, r)
    ensures r == Answer(Matches(p, s)) <==>
            && (p == [] || p == [STAR] || (!Hangs(p, s) && !Overruns(p, s, after)))
            && !(s == [] && OnlyStars(p, 0)) && !(p == [QUESTION] && |s| > 1)
  {
    hide Accepts, Tokens, Hangs, Matches, Overruns;
    if s == [] {
      NothingLeftOver(p, after);
    } else if p == [] {
      EmptyPattern(s);
    } else if p == [STAR] {
      LoneStar(p, s);
    } else if p == [QUESTION] {
      OneCharacter(p, s, after);
    }
  }

  lemma EmptyPattern(s: seq<Char>)
    requires s != []
    ensures !Matches([], s)
  {
  }

  // ----- Which patterns can fail to return -----

  /** Some character passes the token. */
  ghost predicate Passable(t: Token) {
    t.Star? || exists c :: TokenAccepts(t, c)
  }

  /** An endless class comes after passable tokens only. */
  ghost predicate CanHang(ts: seq<Token>) {
    ts != [] && (ts[0].Endless? || (Passable(ts[0]) && CanHang(ts[1..])))
  }

  lemma {:induction false} HangingText(ts: seq<Token>) returns (s: seq<Char>)
    requires CanHang(ts)
    ensures Accepts(Stuck, ts, s)
    decreases |ts|
  {
    if ts[0].Endless? {
      s := [NUL];
    } else {
      s := HangingText(ts[1..]);
      if ts[0].Star? {
        assert s[0..] == s;
      } else {
        var c :| TokenAccepts(ts[0], c);
        assert ([c] + s)[1..] == s;
        s := [c] + s;
      }
    }
  }

  lemma {:induction false} HangingTokens(ts: seq<Token>, s: seq<Char>)
    requires Accepts(Stuck, ts, s)
    ensures CanHang(ts)
    decreases |ts|
  {
    if ts[0].Star? {
      var k :| 0 <= k <= |s| && Accepts(Stuck, ts[1..], s[k..]);
      HangingTokens(ts[1..], s[k..]);
    } else if !ts[0].Endless? {
      HangingTokens(ts[1..], s[1..]);
    }
  }

  /** Every call returns or runs past the pattern, if and only if no endless class can be reached. */
  lemma ReturnsExactly(p: seq<Char>, after: Char)
    ensures (forall s, r :: Verdict(p, s, after, r) ==> !r.NoReturn?) <==> !CanHang(Tokens(p, 0))
  {
    if CanHang(Tokens(p, 0)) {
      var s := HangingText(Tokens(p, 0));
      SpecialsReturn(p);
      NothingLeft(Tokens(p, 0), []);
      assert Verdict(p, s, after, NoReturn);
    } else {
      forall s, r | Verdict(p, s, after, r) ensures !r.NoReturn? {
        if r.NoReturn? { HangingTokens(Tokens(p, 0), s); }
      }
    }
  }

  lemma SpecialsReturn(p: seq<Char>)
    requires CanHang(Tokens(p, 0))
    ensures p != [] && p != [STAR] && p != [QUESTION]
  {
    assert Tokens([], 0) == [];
    assert Tokens([STAR], 0) == [Star];
    assert Tokens([QUESTION], 0) == [AnyOne];
  }

  /** A dash without a left end: after the opening of a class, or after the character -1. */
  predicate BareDash(p: seq<Char>, j: nat) {
    && 0 < j < |p| && p[j] == DASH
    && (p[j - 1] == OPEN || p[j - 1] == -1 || (p[j - 1] == CARET && j > 1 && p[j - 2] == OPEN))
  }

  lemma {:induction false} LoopsAtDash(p: seq<Char>, i: nat, prev: int) returns (j: nat)
    requires i <= |p| && ClassBody(p, i, prev).Loops?
    ensures i <= j < |p| && p[j] == DASH && (if j == i then prev == -1 else p[j - 1] == -1)
    decreases |p| - i
  {
    if p[i] == DASH {
      if prev == -1 { return i; }
      j := LoopsAtDash(p, i + 1, prev);
    } else if p[i] == BACKSLASH {
      j := LoopsAtDash(p, i + 2, p[i + 1]);
    } else {
      j := LoopsAtDash(p, i + 1, p[i]);
    }
  }

  lemma EndlessAtDash(p: seq<Char>, i: nat)
    requires i < |p| && Lex(p, i).0.Endless?
    ensures exists j :: BareDash(p, j)
  {
    var start := if p[i + 1] == CARET then i + 2 else i + 1;
    var j := LoopsAtDash(p, start, -1);
    assert BareDash(p, j);
  }

  lemma {:induction false} NoBareDash(p: seq<Char>, i: nat)
    requires i <= |p| && forall j :: !BareDash(p, j)
    ensures !CanHang(Tokens(p, i))
    decreases |p| - i
  {
    if i < |p| {
      if Lex(p, i).0.Endless? { EndlessAtDash(p, i); }
      NoBareDash(p, Lex(p, i).1);
      assert Tokens(p, i)[1..] == Tokens(p, Lex(p, i).1);
    }
  }

  /** A pattern without a bare dash makes no call fail to return. */
  lemma NoEndlessClass(p: seq<Char>, s: seq<Char>, after: Char, r: Outcome)
    requires Verdict(p, s, after, r) && forall j :: !BareDash(p, j)
    ensures !r.NoReturn?
  {
    NoBareDash(p, 0);
    ReturnsExactly(p, after);
  }

  /** A pattern that starts with a class that starts with a dash never returns, on any text. */
  lemma LeadingDashHangs(p: seq<Char>, s: seq<Char>, after: Char, r: Outcome)
    requires s != [] && Verdict(p, s, after, r) && |p| > 1 && p[0] == OPEN
    requires p[1] == DASH || (|p| > 2 && p[1] == CARET && p[2] == DASH)
    ensures r == NoReturn
  {
    assert ClassBody(p, if p[1] == CARET then 2 else 1, -1).Loops?;
    assert Tokens(p, 0)[0].Endless?;
  }

  // ----- Which texts can make a call run past the pattern -----

  predicate Passing(after: Char) { after == STAR || after == QUESTION || after == BACKSLASH || after == CLOSE }

  /** The byte after the pattern passes no character of the text. */
  predicate Harmless(s: seq<Char>, after: Char) {
    after == OPEN || (!Passing(after) && after !in s)
  }

  lemma {:induction false} HarmlessStays(ts: seq<Token>, s: seq<Char>, after: Char)
    requires Harmless(s, after)
    ensures !Accepts(Over(after), ts, s)
    decreases |ts|
  {
    if ts == [] {
    } else if ts[0].Star? {
      forall k | 0 <= k <= |s| ensures !Accepts(Over(after), ts[1..], s[k..]) {
        HarmlessStays(ts[1..], s[k..], after);
      }
    } else if s != [] {
      HarmlessStays(ts[1..], s[1..], after);
    }
  }

  lemma TwoStars(s: seq<Char>, after: Char, k: nat)
    requires k < |s| && RunsPast(after, s[k])
    ensures Verdict([STAR, STAR], s, after, Overrun)
  {
    var p: seq<Char> := [STAR, STAR];
    assert Tokens(p, 2) == [];
    assert Tokens(p, 1) == [Star] + Tokens(p, 2);
    assert Tokens(p, 0) == [Star] + Tokens(p, 1);
    assert Tokens(p, 0)[1..] == Tokens(p, 1) && Tokens(p, 1)[1..] == [];
    assert Accepts(Over(after), [], s[k..]);
    StarSplit(Over(after), Tokens(p, 1), s, k);
    StarSplit(Over(after), Tokens(p, 0), s, 0);
    assert s[0..] == s;
  }

  lemma UnclosedClass(s: seq<Char>)
    requires s != []
    ensures Verdict([OPEN, CARET], s, CLOSE, Overrun)
  {
    var p: seq<Char> := [OPEN, CARET];
    assert ClassBody(p, 2, -1) == Unclosed([]);
    assert Tokens(p, 0)[0] == Open(true, []);
  }

  /**
   No pattern makes the call run past its end, if and only if the text is empty or the byte after
   the pattern is harmless for it.
   */
  lemma StaysInPatternExactly(s: seq<Char>, after: Char)
    ensures (forall p, r :: Verdict(p, s, after, r) ==> !r.Overrun?) <==> s == [] || Harmless(s, after)
  {
    if s == [] {
    } else if Harmless(s, after) {
      forall p, r | Verdict(p, s, after, r) ensures !r.Overrun? { HarmlessStays(Tokens(p, 0), s, after); }
    } else if after == CLOSE {
      UnclosedClass(s);
    } else {
      var k :| 0 <= k < |s| && RunsPast(after, s[k]);
      TwoStars(s, after, k);
    }
  }
}
