/** The patterns of the KEYS command: `*`, `?`, character classes and escapes.

    `CanExtend` and `Elastic` decide two questions about a pattern and a beginning: does some
    continuation of the beginning match, and do all of them?  The access-control manager puts
    principal ids into such patterns unescaped, so these are the questions about its ids. */
module KeyPattern {

  datatype Range = Range(first: char, last: char)

  datatype Token = Literal(c: char) | AnyOne | AnyRun | OneOf(negated: bool, ranges: seq<Range>)

  /** The bounds of a range may come in either order. */
  predicate InRange(r: Range, c: char) { r.first <= c <= r.last || r.last <= c <= r.first }

  predicate Fits(t: Token, c: char) {
    match t
    case Literal(d) => c == d
    case OneOf(negated, ranges) => negated != exists i :: 0 <= i < |ranges| && InRange(ranges[i], c)
    case _ => true
  }

  // ---------------------------------------------------------------- reading a pattern

  /** The rest of a class, behind `[` or `[^`: its ranges, and what follows it.  A class that is not
      closed ends with the pattern. */
  function Class(text: string): (r: (seq<Range>, string))
    ensures |r.1| <= |text|
  {
    if text == "" then ([], "")
    else if text[0] == '\\' && |text| >= 2 then
      var (ranges, rest) := Class(text[2..]);
      ([Range(text[1], text[1])] + ranges, rest)
    else if text[0] == ']' then ([], text[1..])
    else if |text| >= 3 && text[1] == '-' then
      var (ranges, rest) := Class(text[3..]);
      ([Range(text[0], text[2])] + ranges, rest)
    else
      var (ranges, rest) := Class(text[1..]);
      ([Range(text[0], text[0])] + ranges, rest)
  }

  function Tokens(pattern: string): seq<Token>
    decreases |pattern|
  {
    if pattern == "" then []
    else if pattern[0] == '*' then [AnyRun] + Tokens(pattern[1..])
    else if pattern[0] == '?' then [AnyOne] + Tokens(pattern[1..])
    else if pattern[0] == '[' then
      var negated := |pattern| > 1 && pattern[1] == '^';
      var (ranges, rest) := Class(if negated then pattern[2..] else pattern[1..]);
      [OneOf(negated, ranges)] + Tokens(rest)
    else if pattern[0] == '\\' && |pattern| >= 2 then [Literal(pattern[1])] + Tokens(pattern[2..])
    else [Literal(pattern[0])] + Tokens(pattern[1..])
  }

  predicate Accepts(ts: seq<Token>, s: string)
    decreases |ts|, |s|
  {
    if ts == [] then s == ""
    else if ts[0].AnyRun? then Accepts(ts[1..], s) || (s != "" && Accepts(ts, s[1..]))
    else s != "" && Fits(ts[0], s[0]) && Accepts(ts[1..], s[1..])
  }

  predicate Matches(pattern: string, key: string) { Accepts(Tokens(pattern), key) }

  /** A question mark stands for one character; a backslash takes a special character literally. */
  lemma SpecialCharacters(key: string)
    ensures Matches("?", key) <==> |key| == 1
    ensures Matches("\\*", key) <==> key == "*"
  {
    assert Tokens("") == [];
    assert Tokens("?") == [AnyOne];
    assert Tokens("\\*") == [Literal('*')] by {
      assert "\\*"[2..] == "";
    }
    OneToken(AnyOne, key);
    OneToken(Literal('*'), key);
  }

  /** A class stands for one of the characters it lists, or with `^` for any other; it may list the bracket that
      closes it behind a backslash. */
  lemma CharacterClasses(key: string)
    ensures Matches("[ae]", key) <==> |key| == 1 && key[0] in {'a', 'e'}
    ensures Matches("[^e]", key) <==> |key| == 1 && key[0] != 'e'
    ensures Matches("[\\]]", key) <==> |key| == 1 && key[0] == ']'
  {
    ClassTokens();
    ClassAccepts(false, [Range('a', 'a'), Range('e', 'e')], key, {'a', 'e'});
    ClassAccepts(true, [Range('e', 'e')], key, {'e'});
    ClassAccepts(false, [Range(']', ']')], key, {']'});
  }

  /** A range in a class may come in either order. */
  lemma CharacterRanges(key: string)
    ensures Matches("[a-c]", key) <==> |key| == 1 && key[0] in {'a', 'b', 'c'}
    ensures Matches("[c-a]", key) <==> |key| == 1 && key[0] in {'a', 'b', 'c'}
  {
    ClassTokens();
    ClassAccepts(false, [Range('a', 'c')], key, {'a', 'b', 'c'});
    ClassAccepts(false, [Range('c', 'a')], key, {'a', 'b', 'c'});
  }

  lemma ClassAccepts(negated: bool, ranges: seq<Range>, key: string, members: set<char>)
    requires 1 <= |ranges| <= 2
    requires forall c :: c in members <==> InRange(ranges[0], c) || InRange(ranges[|ranges| - 1], c)
    ensures Accepts([OneOf(negated, ranges)], key) <==> |key| == 1 && (key[0] in members) != negated
  {
    OneToken(OneOf(negated, ranges), key);
  }

  lemma OneToken(t: Token, key: string)
    requires !t.AnyRun?
    ensures Accepts([t], key) <==> |key| == 1 && Fits(t, key[0])
  {
    if key != "" {
      assert [t][1..] == [];
    }
  }

  lemma ClassTokens()
    ensures Tokens("[ae]") == [OneOf(false, [Range('a', 'a'), Range('e', 'e')])]
    ensures Tokens("[^e]") == [OneOf(true, [Range('e', 'e')])]
    ensures Tokens("[a-c]") == [OneOf(false, [Range('a', 'c')])]
    ensures Tokens("[c-a]") == [OneOf(false, [Range('c', 'a')])]
    ensures Tokens("[\\]]") == [OneOf(false, [Range(']', ']')])]
  {
    assert Class("]") == ([], "");
    assert Class("e]").0 == [Range('e', 'e')] && Class("ae]").0 == [Range('a', 'a'), Range('e', 'e')];
    assert Class("a-c]").0 == [Range('a', 'c')] && Class("c-a]").0 == [Range('c', 'a')];
    assert Class("\\]]").0 == [Range(']', ']')];
    assert "[ae]"[1..] == "ae]" && "[^e]"[2..] == "e]" && "[a-c]"[1..] == "a-c]";
    assert "[c-a]"[1..] == "c-a]" && "[\\]]"[1..] == "\\]]";
  }

  // ---------------------------------------------------------------- plain text

  predicate Plain(text: string) {
    forall i :: 0 <= i < |text| ==> text[i] !in {'*', '?', '[', '\\'}
  }

  function Literals(text: string): (ts: seq<Token>)
    ensures |ts| == |text|
  {
    if text == "" then [] else [Literal(text[0])] + Literals(text[1..])
  }

  lemma {:induction false} PlainTokens(text: string, pattern: string)
    requires Plain(text)
    ensures Tokens(text + pattern) == Literals(text) + Tokens(pattern)
  {
    if text == "" {
      assert text + pattern == pattern;
    } else {
      PlainTokens(text[1..], pattern);
      assert (text + pattern)[1..] == text[1..] + pattern;
    }
  }

  lemma {:induction false} LiteralsAccept(text: string, ts: seq<Token>, s: string)
    ensures Accepts(Literals(text) + ts, s) <==> text <= s && Accepts(ts, s[|text|..])
  {
    var all := Literals(text) + ts;
    if text == "" {
      assert all == ts && s[0..] == s;
    } else {
      assert all[1..] == Literals(text[1..]) + ts;
      if s != "" {
        LiteralsAccept(text[1..], ts, s[1..]);
        assert text == [text[0]] + text[1..] && s == [s[0]] + s[1..];
        if text[0] == s[0] && text[1..] <= s[1..] {
          assert s[1..][|text| - 1..] == s[|text|..];
        }
      }
    }
  }

  lemma {:induction false} RunAccepts(s: string)
    ensures Accepts([AnyRun], s)
  {
    assert [AnyRun][1..] == [];
    if s == "" {
    } else {
      RunAccepts(s[1..]);
    }
  }

  /** Plain text followed by a star matches exactly the keys that begin with the text. */
  lemma PlainPrefix(text: string, key: string)
    requires Plain(text)
    ensures Matches(text + "*", key) <==> text <= key
  {
    PlainTokens(text, "*");
    assert Tokens("*") == [AnyRun] by {
      assert "*"[1..] == "";
    }
    LiteralsAccept(text, [AnyRun], key);
    if text <= key {
      RunAccepts(key[|text|..]);
    }
  }

  // ---------------------------------------------------------------- does some continuation match?

  ghost predicate Possible(t: Token) { exists c :: Fits(t, c) }

  ghost predicate Satisfiable(ts: seq<Token>) {
    forall i :: 0 <= i < |ts| ==> Possible(ts[i])
  }

  /** Some continuation of `s` is accepted (see `CanExtendExactly`). */
  ghost predicate CanExtend(ts: seq<Token>, s: string)
    decreases |ts|, |s|
  {
    if s == "" then Satisfiable(ts)
    else if ts == [] then false
    else if ts[0].AnyRun? then CanExtend(ts[1..], s) || CanExtend(ts, s[1..])
    else Fits(ts[0], s[0]) && CanExtend(ts[1..], s[1..])
  }

  lemma {:induction false} SatisfiedBy(ts: seq<Token>) returns (s: string)
    requires Satisfiable(ts)
    ensures Accepts(ts, s)
  {
    s := "";
    if ts == [] {
    } else {
      var rest := SatisfiedBy(ts[1..]);
      if ts[0].AnyRun? {
        s := rest;
      } else {
        assert Possible(ts[0]);
        var c :| Fits(ts[0], c);
        s := [c] + rest;
        assert s[1..] == rest;
      }
    }
  }

  lemma {:induction false} Continuation(ts: seq<Token>, s: string) returns (t: string)
    requires CanExtend(ts, s)
    ensures Accepts(ts, s + t)
    decreases |ts|, |s|
  {
    if s == "" {
      t := SatisfiedBy(ts);
      assert s + t == t;
    } else if ts[0].AnyRun? && CanExtend(ts[1..], s) {
      t := Continuation(ts[1..], s);
    } else {
      t := Continuation(if ts[0].AnyRun? then ts else ts[1..], s[1..]);
      assert (s + t)[1..] == s[1..] + t;
    }
  }

  lemma {:induction false} AcceptedIsSatisfiable(ts: seq<Token>, s: string)
    requires Accepts(ts, s)
    ensures Satisfiable(ts)
    decreases |ts|, |s|
  {
    if ts == [] {
    } else {
      assert ts == [ts[0]] + ts[1..];
      if !ts[0].AnyRun? {
        assert Fits(ts[0], s[0]);
        AcceptedIsSatisfiable(ts[1..], s[1..]);
      } else {
        assert Fits(ts[0], ' ');
        if Accepts(ts[1..], s) {
          AcceptedIsSatisfiable(ts[1..], s);
        } else {
          AcceptedIsSatisfiable(ts, s[1..]);
        }
      }
    }
  }

  lemma {:induction false} AcceptedExtends(ts: seq<Token>, s: string, t: string)
    requires Accepts(ts, s + t)
    ensures CanExtend(ts, s)
    decreases |ts|, |s|
  {
    if s == "" {
      AcceptedIsSatisfiable(ts, s + t);
    } else {
      assert (s + t)[1..] == s[1..] + t;
      if !ts[0].AnyRun? {
        AcceptedExtends(ts[1..], s[1..], t);
      } else if Accepts(ts[1..], s + t) {
        AcceptedExtends(ts[1..], s, t);
      } else {
        AcceptedExtends(ts, s[1..], t);
      }
    }
  }

  lemma {:induction false} CanExtendExactly(ts: seq<Token>, s: string)
    ensures CanExtend(ts, s) <==> exists t :: Accepts(ts, s + t)
  {
    if CanExtend(ts, s) {
      var t := Continuation(ts, s);
    }
    if t :| Accepts(ts, s + t) {
      AcceptedExtends(ts, s, t);
    }
  }

  // ---------------------------------------------------------------- do all continuations match?

  ghost predicate Universal(ts: seq<Token>) {
    forall i :: 0 <= i < |ts| ==> forall c :: Fits(ts[i], c)
  }

  /** The tokens behind some star accept every character. */
  ghost predicate Elastic(ts: seq<Token>) {
    ts != [] && (Elastic(ts[1..]) || (ts[0].AnyRun? && Universal(ts[1..])))
  }

  lemma {:induction false} OnlyLengthMatters(ts: seq<Token>, s: string, s': string)
    requires Universal(ts) && |s| == |s'| && Accepts(ts, s)
    ensures Accepts(ts, s')
    decreases |ts|, |s|
  {
    if ts == [] {
    } else {
      if !ts[0].AnyRun? {
        OnlyLengthMatters(ts[1..], s[1..], s'[1..]);
      } else if Accepts(ts[1..], s) {
        OnlyLengthMatters(ts[1..], s, s');
      } else {
        OnlyLengthMatters(ts, s[1..], s'[1..]);
      }
    }
  }

  lemma {:induction false} Stretches(ts: seq<Token>, s: string, c: char)
    requires Elastic(ts) && Accepts(ts, s)
    ensures Accepts(ts, s + [c])
    decreases |ts|, |s|
  {
    if s != "" {
      assert (s + [c])[1..] == s[1..] + [c];
    }
    if !ts[0].AnyRun? {
      Stretches(ts[1..], s[1..], c);
    } else if !Accepts(ts[1..], s) {
      Stretches(ts, s[1..], c);
    } else if Elastic(ts[1..]) {
      Stretches(ts[1..], s, c);
    } else {
      OnlyLengthMatters(ts[1..], s, (s + [c])[1..]);
    }
  }

  lemma {:induction false} StretchesOn(ts: seq<Token>, s: string, t: string)
    requires Elastic(ts) && Accepts(ts, s)
    ensures Accepts(ts, s + t)
    decreases |t|
  {
    if t == "" {
      assert s + t == s;
    } else {
      Stretches(ts, s, t[0]);
      StretchesOn(ts, s + [t[0]], t[1..]);
      assert s + [t[0]] + t[1..] == s + t;
    }
  }

  predicate HasRun(ts: seq<Token>) { exists i :: 0 <= i < |ts| && ts[i].AnyRun? }

  lemma {:induction false} FixedLength(ts: seq<Token>, s: string)
    requires !HasRun(ts) && Accepts(ts, s)
    ensures |s| == |ts|
    ensures forall i :: 0 <= i < |ts| ==> Fits(ts[i], s[i])
  {
    if ts == [] {
    } else {
      FixedLength(ts[1..], s[1..]);
    }
  }

  lemma {:induction false} BehindRun(ts: seq<Token>, s: string) returns (k: nat)
    requires ts != [] && ts[0].AnyRun? && Accepts(ts, s)
    ensures k <= |s| && Accepts(ts[1..], s[k..])
    decreases |s|
  {
    if Accepts(ts[1..], s) {
      k := 0;
    } else {
      var j := BehindRun(ts, s[1..]);
      k := j + 1;
      assert s[1..][j..] == s[k..];
    }
  }

  /** Counted from the end, some position cannot hold some character. */
  ghost predicate Refuses(ts: seq<Token>, c: char, m: nat) {
    m >= 1 && forall s :: Accepts(ts, s) ==> |s| >= m && s[|s| - m] != c
  }

  lemma {:induction false} SomethingRefused(ts: seq<Token>) returns (c: char, m: nat)
    requires HasRun(ts) && !Elastic(ts)
    ensures Refuses(ts, c, m)
  {
    var rest := ts[1..];
    if HasRun(rest) {
      c, m := SomethingRefused(rest);
      forall s | Accepts(ts, s)
        ensures |s| >= m && s[|s| - m] != c
      {
        var k := 1;
        if ts[0].AnyRun? {
          k := BehindRun(ts, s);
        }
        assert Accepts(rest, s[k..]);
      }
    } else {
      var j :| 0 <= j < |rest| && !forall d :: Fits(rest[j], d);
      c :| !Fits(rest[j], c);
      m := |rest| - j;
      forall s | Accepts(ts, s)
        ensures |s| >= m && s[|s| - m] != c
      {
        var k := BehindRun(ts, s);
        FixedLength(rest, s[k..]);
        assert s[k..][j] == s[|s| - m];
      }
    }
  }

  lemma {:induction false} SomeContinuationRefused(ts: seq<Token>, s: string) returns (t: string)
    requires !Elastic(ts)
    ensures !Accepts(ts, s + t)
  {
    if HasRun(ts) {
      var c, m := SomethingRefused(ts);
      t := seq(m, i => c);
      assert (s + t)[|s + t| - m] == c;
    } else {
      t := seq(|ts| + 1, i => ' ');
      if Accepts(ts, s + t) {
        FixedLength(ts, s + t);
      }
    }
  }

  /** Every continuation of `s` matches exactly when `s` does and the pattern is elastic. */
  lemma {:induction false} AllContinuationsExactly(ts: seq<Token>, s: string)
    ensures (forall t :: Accepts(ts, s + t)) <==> Accepts(ts, s) && Elastic(ts)
  {
    if Accepts(ts, s) && Elastic(ts) {
      forall t
        ensures Accepts(ts, s + t)
      {
        StretchesOn(ts, s, t);
      }
    }
    if forall t :: Accepts(ts, s + t) {
      assert Accepts(ts, s + "") && s + "" == s;
      if !Elastic(ts) {
        var t := SomeContinuationRefused(ts, s);
      }
    }
  }
}
