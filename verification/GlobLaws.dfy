/**
 What patterns mean, on the character codes themselves: plain text, `*`, `?`, escapes and classes.
 Together with `Glob.GlobMatch` these say what a call answers without naming the matcher.
 */
module GlobLaws {

  import opened Glob

  /** A character that stands for itself: none of `*`, `?`, `[` and `\`. */
  predicate Plain(c: Char) { c != 42 && c != 63 && c != 91 && c != 92 }

  predicate AllPlain(p: seq<Char>) { forall i :: 0 <= i < |p| ==> Plain(p[i]) }

  // ----- Plain text -----

  function Literals(p: seq<Char>): seq<Token> {
    if p == [] then [] else [Literal(p[0])] + Literals(p[1..])
  }

  lemma PlainLex(w: seq<Char>, o: nat)
    requires o < |w| && Plain(w[o])
    ensures Lex(w, o) == (Literal(w[o]), o + 1)
  {
  }

  lemma Regroup(a: seq<Token>, b: seq<Token>, c: seq<Token>)
    ensures (a + b) + c == a + (b + c)
  {
  }

  /** The tokens of a pattern that has the plain text `p` at `o`. */
  lemma {:induction false} PlainTokens(w: seq<Char>, o: nat, p: seq<Char>)
    requires o + |p| <= |w| && w[o..o + |p|] == p && AllPlain(p)
    ensures Tokens(w, o) == Literals(p) + Tokens(w, o + |p|)
    decreases |p|
  {
    hide Lex;
    if p != [] {
      assert w[o] == w[o..o + |p|][0] && w[o + 1..o + |p|] == p[1..];
      PlainLex(w, o);
      PlainTokens(w, o + 1, p[1..]);
      Regroup([Literal(p[0])], Literals(p[1..]), Tokens(w, o + |p|));
    } else {
      assert Literals(p) + Tokens(w, o) == Tokens(w, o);
    }
  }

  /** Plain text must be there, and what is left is matched by the rest. */
  lemma {:induction false} PlainAccepts(g: Goal, p: seq<Char>, ts: seq<Token>, s: seq<Char>)
    ensures Accepts(g, Literals(p) + ts, s) <==> p <= s && Accepts(g, ts, s[|p|..])
    decreases |p|
  {
    if p == [] {
      assert Literals(p) + ts == ts && s[0..] == s;
    } else {
      var all := Literals(p) + ts;
      assert all[0] == Literal(p[0]) && all[1..] == Literals(p[1..]) + ts;
      if s != [] {
        PlainAccepts(g, p[1..], ts, s[1..]);
        assert s == [s[0]] + s[1..] && p == [p[0]] + p[1..];
        if |p| <= |s| { assert s[1..][|p| - 1..] == s[|p|..]; }
      }
    }
  }

  lemma OneStar(s: seq<Char>)
    ensures Accepts(Whole, [Star], s) && !Accepts(Stuck, [Star], s)
  {
    assert [Star][1..] == [];
    assert s[|s|..] == [];
    forall k | 0 <= k <= |s| ensures !Accepts(Stuck, [], s[k..]) {}
  }

  lemma Ends(w: seq<Char>)
    ensures Tokens(w, |w|) == []
    ensures w != [] && w[|w| - 1] == 42 ==> Tokens(w, |w| - 1) == [Star]
  {
    if w != [] && w[|w| - 1] == 42 {
      assert Lex(w, |w| - 1) == (Star, |w|);
      assert Tokens(w, |w| - 1) == [Star] + Tokens(w, |w|);
    }
  }

  /** A pattern of plain text matches that text only. */
  lemma PlainLaw(p: seq<Char>, s: seq<Char>, after: Char, r: Outcome)
    requires p != [] && s != [] && AllPlain(p) && Harmless(s, after) && Verdict(p, s, after, r)
    ensures r == Answer(s == p)
  {
    hide Accepts, Tokens, Literals;
    assert p[0..0 + |p|] == p;
    PlainTokens(p, 0, p);
    Ends(p);
    PlainAccepts(Whole, p, [], s);
    PlainAccepts(Stuck, p, [], s);
    HarmlessStays(Tokens(p, 0), s, after);
    if p <= s { EmptyAccepts(s[|p|..]); }
    assert Plain(p[0]);
  }

  lemma EmptyAccepts(s: seq<Char>)
    ensures (Accepts(Whole, [], s) <==> s == []) && !Accepts(Stuck, [], s)
  {
  }

  /** Plain text and a star match the texts that begin with it. */
  lemma PrefixLaw(p: seq<Char>, s: seq<Char>, after: Char, r: Outcome)
    requires p != [] && s != [] && AllPlain(p) && Harmless(s, after) && Verdict(p + [42], s, after, r)
    ensures r == Answer(p <= s)
  {
    hide Accepts, Tokens, Literals;
    var w := p + [42];
    assert w[0..0 + |p|] == p;
    PlainTokens(w, 0, p);
    Ends(w);
    PlainAccepts(Whole, p, [Star], s);
    PlainAccepts(Stuck, p, [Star], s);
    HarmlessStays(Tokens(w, 0), s, after);
    if p <= s { OneStar(s[|p|..]); }
    assert |w| >= 2;
  }

  /** The tokens of a pattern that starts with a star. */
  lemma StarFirst(w: seq<Char>)
    requires w != [] && w[0] == 42
    ensures Tokens(w, 0) != [] && Tokens(w, 0)[0] == Star && Tokens(w, 0)[1..] == Tokens(w, 1)
  {
    assert Lex(w, 0) == (Star, 1);
    assert Tokens(w, 0) == [Star] + Tokens(w, 1);
  }

  /** A star and plain text match the texts that end with it. */
  lemma SuffixLaw(p: seq<Char>, s: seq<Char>, after: Char, r: Outcome)
    requires p != [] && s != [] && AllPlain(p) && Harmless(s, after) && Verdict([42] + p, s, after, r)
    ensures r == Answer(|p| <= |s| && s[|s| - |p|..] == p)
  {
    hide Accepts, Tokens, Literals;
    var w := [42] + p;
    assert w[1..1 + |p|] == p;
    PlainTokens(w, 1, p);
    Ends(w);
    StarFirst(w);
    HarmlessStays(Tokens(w, 0), s, after);
    assert s[0..] == s;
    StarSplit(Whole, Tokens(w, 0), s, 0);
    StarSplit(Stuck, Tokens(w, 0), s, 0);
    forall k | 0 <= k <= |s|
      ensures Accepts(Whole, Tokens(w, 1), s[k..]) <==> s[k..] == p
      ensures !Accepts(Stuck, Tokens(w, 1), s[k..])
    {
      PlainAccepts(Whole, p, [], s[k..]);
      PlainAccepts(Stuck, p, [], s[k..]);
      if p <= s[k..] { EmptyAccepts(s[k..][|p|..]); }
    }
    if |p| <= |s| && s[|s| - |p|..] == p { assert Accepts(Whole, Tokens(w, 1), s[|s| - |p|..]); }
    assert |w| >= 2;
  }

  /** The text has `p` at `k`. */
  predicate Has(s: seq<Char>, p: seq<Char>, k: nat) { k <= |s| && p <= s[k..] }

  /** Plain text between two stars matches the texts that contain it. */
  lemma ContainsLaw(p: seq<Char>, s: seq<Char>, after: Char, r: Outcome)
    requires p != [] && s != [] && AllPlain(p) && Harmless(s, after) && Verdict([42] + p + [42], s, after, r)
    ensures r == Answer(exists k :: Has(s, p, k))
  {
    hide Accepts, Tokens, Literals;
    var w := [42] + p + [42];
    assert w[1..1 + |p|] == p;
    PlainTokens(w, 1, p);
    Ends(w);
    StarFirst(w);
    HarmlessStays(Tokens(w, 0), s, after);
    assert s[0..] == s;
    StarSplit(Whole, Tokens(w, 0), s, 0);
    StarSplit(Stuck, Tokens(w, 0), s, 0);
    forall k | 0 <= k <= |s|
      ensures Accepts(Whole, Tokens(w, 1), s[k..]) <==> Has(s, p, k)
      ensures !Accepts(Stuck, Tokens(w, 1), s[k..])
    {
      PlainAccepts(Whole, p, [Star], s[k..]);
      PlainAccepts(Stuck, p, [Star], s[k..]);
      if p <= s[k..] { OneStar(s[k..][|p|..]); }
    }
    assert |w| >= 2;
  }

  // ----- Single characters -----

  /** A pattern of one token against a text of one character. */
  lemma OneToken(p: seq<Char>, t: Token, c: Char, after: Char, r: Outcome)
    requires |p| > 1 && Tokens(p, 0) == [t] && !t.Star? && !t.Endless? && !t.Open? && Verdict(p, [c], after, r)
    ensures r == Answer(TokenAccepts(t, c))
  {
    assert [t][1..] == [];
    assert [c][1..] == [];
    assert [c][0..] == [c];
    forall g: Goal ensures Accepts(g, [t], [c]) <==> TokenAccepts(t, c) && Accepts(g, [], []) {
      StepSplit(g, [t], [c], 0);
    }
  }

  lemma LastToken(p: seq<Char>, t: Token)
    requires p != [] && Lex(p, 0) == (t, |p|)
    ensures Tokens(p, 0) == [t]
  {
    assert Tokens(p, |p|) == [];
  }

  /** A backslash takes the next character for itself, whatever it is. */
  lemma EscapeLaw(x: Char, c: Char, after: Char, r: Outcome)
    requires Verdict([92, x], [c], after, r)
    ensures r == Answer(c == x)
  {
    hide Tokens, Verdict;
    LastToken([92, x], Literal(x));
    OneToken([92, x], Literal(x), c, after, r);
  }

  /** A character that stands for itself in a class. */
  predicate InClass(c: Char) { Plain(c) && c != 45 && c != 93 && c != 94 && c != -1 }

  function Ones(p: seq<Char>): seq<Item> {
    if p == [] then [] else [One(p[0])] + Ones(p[1..])
  }

  lemma {:induction false} OnesAccept(p: seq<Char>, c: Char)
    ensures SomeItemAccepts(Ones(p), c) <==> c in p
  {
    if p != [] {
      OnesAccept(p[1..], c);
      var items := Ones(p);
      assert items[1..] == Ones(p[1..]);
      assert p == [p[0]] + p[1..];
      if SomeItemAccepts(Ones(p[1..]), c) {
        var i :| 0 <= i < |items[1..]| && ItemAccepts(items[1..][i], c);
        assert items[i + 1] == items[1..][i];
      }
      if SomeItemAccepts(items, c) {
        var i :| 0 <= i < |items| && ItemAccepts(items[i], c);
        if i > 0 { assert items[1..][i - 1] == items[i]; }
      }
      if c == p[0] { assert ItemAccepts(items[0], c); }
    }
  }

  /** The body of a class of plain characters that ends at the end of the pattern. */
  lemma {:induction false} OnesBody(w: seq<Char>, o: nat, p: seq<Char>, prev: int)
    requires |w| == o + |p| + 1 && w[o..o + |p|] == p && w[o + |p|] == 93 && forall i :: 0 <= i < |p| ==> InClass(p[i])
    ensures ClassBody(w, o, prev) == Closed(Ones(p), |w|)
    decreases |p|
  {
    if p != [] {
      assert w[o] == w[o..o + |p|][0] && w[o + 1..o + |p|] == p[1..];
      assert InClass(p[0]);
      OnesBody(w, o + 1, p[1..], p[0]);
    }
  }

  /** A class of plain characters accepts those, and with a caret all others. */
  lemma ClassLaw(p: seq<Char>, c: Char, after: Char, r: Outcome)
    requires (forall i :: 0 <= i < |p| ==> InClass(p[i])) && Verdict([91] + p + [93], [c], after, r)
    ensures r == Answer(c in p)
  {
    hide Tokens, Verdict, ClassBody, SomeItemAccepts;
    var w := [91] + p + [93];
    assert w[1..1 + |p|] == p;
    if p != [] { assert InClass(p[0]) && w[1] == p[0]; }
    OnesBody(w, 1, p, -1);
    ClassVerdict(w, 1, false, Ones(p), c, after, r);
    OnesAccept(p, c);
  }

  lemma NegatedLaw(p: seq<Char>, c: Char, after: Char, r: Outcome)
    requires (forall i :: 0 <= i < |p| ==> InClass(p[i])) && Verdict([91, 94] + p + [93], [c], after, r)
    ensures r == Answer(c !in p)
  {
    hide Tokens, Verdict, ClassBody, SomeItemAccepts;
    var w := [91, 94] + p + [93];
    assert w[2..2 + |p|] == p;
    OnesBody(w, 2, p, -1);
    ClassVerdict(w, 2, true, Ones(p), c, after, r);
    OnesAccept(p, c);
  }

  lemma ClassVerdict(p: seq<Char>, i: nat, negated: bool, items: seq<Item>, c: Char, after: Char, r: Outcome)
    requires |p| > i && p[0] == 91 && ClassBody(p, i, -1) == Closed(items, |p|) && Verdict(p, [c], after, r)
    requires if negated then i == 2 && p[1] == 94 else i == 1 && p[1] != 94
    ensures r == Answer(negated != SomeItemAccepts(items, c))
  {
    hide Tokens, Verdict, ClassBody, SomeItemAccepts;
    LastToken(p, Class(negated, items));
    OneToken(p, Class(negated, items), c, after, r);
  }

  lemma SomeOf(items: seq<Item>, c: Char)
    ensures |items| == 1 ==> (SomeItemAccepts(items, c) <==> ItemAccepts(items[0], c))
    ensures |items| == 2 ==> (SomeItemAccepts(items, c) <==> ItemAccepts(items[0], c) || ItemAccepts(items[1], c))
    ensures |items| == 3 ==>
              (SomeItemAccepts(items, c) <==>
               ItemAccepts(items[0], c) || ItemAccepts(items[1], c) || ItemAccepts(items[2], c))
  {
  }

  /** A range takes its ends and what lies between them. */
  lemma RangeLaw(lo: Char, hi: Char, c: Char, after: Char, r: Outcome)
    requires InClass(lo) && InClass(hi) && Verdict([91, lo, 45, hi, 93], [c], after, r)
    ensures r == Answer(c == lo || c == hi || lo <= c <= hi)
  {
    hide Tokens, Verdict;
    var p: seq<Char> := [91, lo, 45, hi, 93];
    var items := [One(lo), Range(lo, hi), One(hi)];
    assert ClassBody(p, 4, hi) == Closed([], 5);
    assert ClassBody(p, 3, lo) == Closed([One(hi)], 5);
    assert ClassBody(p, 2, lo) == Closed([Range(lo, hi), One(hi)], 5);
    assert ClassBody(p, 1, -1) == Closed(items, 5);
    ClassVerdict(p, 1, false, items, c, after, r);
    SomeOf(items, c);
  }

  /** In a class, too, a backslash takes the next character for itself. */
  lemma ClassEscapeLaw(x: Char, c: Char, after: Char, r: Outcome)
    requires Verdict([91, 92, x, 93], [c], after, r)
    ensures r == Answer(c == x)
  {
    hide Tokens, Verdict;
    var p: seq<Char> := [91, 92, x, 93];
    assert ClassBody(p, 3, x) == Closed([], 4);
    assert ClassBody(p, 1, -1) == Closed([One(x)], 4);
    ClassVerdict(p, 1, false, [One(x)], c, after, r);
    SomeOf([One(x)], c);
  }

  // ----- Broken patterns -----

  /** A class without its closing bracket matches nothing. */
  lemma UnclosedLaw(x: Char, s: seq<Char>, after: Char, r: Outcome)
    requires InClass(x) && s != [] && Harmless(s, after) && Verdict([91, x], s, after, r)
    ensures r == Answer(false)
  {
    var p: seq<Char> := [91, x];
    assert ClassBody(p, 2, x) == Unclosed([]);
    assert ClassBody(p, 1, -1) == Unclosed([One(x)]);
    assert Lex(p, 0) == (Open(false, [One(x)]), 2);
    HarmlessStays(Tokens(p, 0), s, after);
  }

  /** Nor does a pattern that ends with a backslash or an opening bracket. */
  lemma TrailingLaw(x: Char, s: seq<Char>, after: Char, r: Outcome)
    requires (x == 91 || x == 92) && s != [] && Harmless(s, after) && Verdict([x], s, after, r)
    ensures r == Answer(false)
  {
    assert Lex([x], 0) == (Never, 1);
    HarmlessStays(Tokens([x], 0), s, after);
  }

  // ----- Question marks -----

  predicate AllQuestions(p: seq<Char>) { forall i :: 0 <= i < |p| ==> p[i] == 63 }

  lemma {:induction false} QuestionsAccept(g: Goal, p: seq<Char>, i: nat, s: seq<Char>)
    requires i <= |p| && AllQuestions(p)
    ensures g.Whole? ==> (Accepts(g, Tokens(p, i), s) <==> |s| == |p| - i)
    ensures g.Stuck? ==> !Accepts(g, Tokens(p, i), s)
    decreases |p| - i
  {
    if i < |p| {
      assert Lex(p, i) == (AnyOne, i + 1);
      assert Tokens(p, i)[1..] == Tokens(p, i + 1);
      if s != [] { QuestionsAccept(g, p, i + 1, s[1..]); }
    }
  }

  /** Two or more question marks match the texts of their number; a single one matches every text. */
  lemma QuestionLaw(p: seq<Char>, s: seq<Char>, after: Char, r: Outcome)
    requires p != [] && s != [] && AllQuestions(p) && Harmless(s, after) && Verdict(p, s, after, r)
    ensures r == Answer(|p| == 1 || |s| == |p|)
  {
    hide Accepts, Tokens;
    QuestionsAccept(Whole, p, 0, s);
    QuestionsAccept(Stuck, p, 0, s);
    HarmlessStays(Tokens(p, 0), s, after);
    assert p[0] == 63;
    if |p| == 1 { assert p == [63]; }
  }
}
