/** The queue-pattern matcher of the access-control manager.

    `Matches` says what a pattern means: a value matches when it is the pattern with every `*`
    replaced by some string.  The code never enumerates replacements: it splits the pattern at
    its stars, drops the empty pieces, places each remaining piece at the leftmost position after
    the previous one, and tests the two ends separately.  `MatchesPattern` proves that this
    search decides the meaning, for every value and every pattern. */
module Glob {

  // ---------------------------------------------------------------- what a pattern means

  /** The number of stars in `pattern`. */
  function Stars(pattern: string): nat {
    if pattern == "" then 0
    else (if pattern[0] == '*' then 1 else 0) + Stars(pattern[1..])
  }

  /** `pattern` with its stars replaced, left to right, by `fills`. */
  function Fill(pattern: string, fills: seq<string>): string
    requires |fills| == Stars(pattern)
  {
    if pattern == "" then ""
    else if pattern[0] == '*' then fills[0] + Fill(pattern[1..], fills[1..])
    else [pattern[0]] + Fill(pattern[1..], fills)
  }

  ghost predicate Matches(pattern: string, value: string) {
    exists fills: seq<string> :: |fills| == Stars(pattern) && Fill(pattern, fills) == value
  }

  // ---------------------------------------------------------------- string primitives

  predicate StartsWith(value: string, part: string) {
    |part| <= |value| && value[..|part|] == part
  }

  predicate EndsWith(value: string, part: string) {
    |part| <= |value| && value[|value| - |part|..] == part
  }

  /** `part` occurs in `value` at index `i`. */
  predicate OccursAt(value: string, part: string, i: int) {
    0 <= i && i + |part| <= |value| && value[i..i + |part|] == part
  }

  /** The least index, not below `from`, at which `part` occurs; -1 when there is none. */
  function IndexOf(value: string, part: string, from: nat): (index: int)
    ensures index == -1 || (from <= index && OccursAt(value, part, index))
    ensures forall i {:trigger OccursAt(value, part, i)} ::
              from <= i && OccursAt(value, part, i) ==> index != -1 && index <= i
    decreases |value| - from
  {
    if from + |part| > |value| then -1
    else if OccursAt(value, part, from) then from
    else IndexOf(value, part, from + 1)
  }

  /** The pieces of `pattern` between its stars, empty pieces included. */
  function Split(pattern: string): (pieces: seq<string>)
    ensures |pieces| == Stars(pattern) + 1
  {
    if pattern == "" then [""]
    else
      var rest := Split(pattern[1..]);
      if pattern[0] == '*' then [""] + rest
      else [[pattern[0]] + rest[0]] + rest[1..]
  }

  function DropEmpty(pieces: seq<string>): (parts: seq<string>)
    ensures forall part :: part in parts ==> part != ""
  {
    if pieces == [] then []
    else (if pieces[0] == "" then [] else [pieces[0]]) + DropEmpty(pieces[1..])
  }

  // ---------------------------------------------------------------- meaning, piece by piece

  /** `pieces` joined with `fills` in between. */
  function Weave(pieces: seq<string>, fills: seq<string>): string
    requires |pieces| == |fills| + 1
  {
    if fills == [] then pieces[0]
    else pieces[0] + (fills[0] + Weave(pieces[1..], fills[1..]))
  }

  lemma Associate(a: string, b: string, c: string)
    ensures (a + b) + c == a + (b + c)
  {
  }

  lemma {:induction false} FillIsWeave(pattern: string, fills: seq<string>)
    requires |fills| == Stars(pattern)
    ensures Fill(pattern, fills) == Weave(Split(pattern), fills)
  {
    if pattern == "" {
    } else {
      var rest := Split(pattern[1..]);
      if pattern[0] == '*' {
        FillIsWeave(pattern[1..], fills[1..]);
        assert Split(pattern)[1..] == rest;
        assert Weave([""] + rest, fills) == fills[0] + Weave(rest, fills[1..]);
      } else {
        FillIsWeave(pattern[1..], fills);
        assert Split(pattern)[1..] == rest[1..];
        if fills != [] {
          Associate([pattern[0]], rest[0], fills[0] + Weave(rest[1..], fills[1..]));
        }
      }
    }
  }

  /** The pieces occur in `value` from `pos` on, in order and without overlap, the last one at
      the very end of `value`; what lies between them is free. */
  ghost predicate Floats(pieces: seq<string>, value: string, pos: nat)
    requires pieces != []
    decreases |pieces|
  {
    if |pieces| == 1 then
      pos + |pieces[0]| <= |value| && EndsWith(value, pieces[0])
    else
      exists i: nat :: pos <= i && OccursAt(value, pieces[0], i) &&
                       Floats(pieces[1..], value, i + |pieces[0]|)
  }

  lemma {:induction false} WeaveFloats(pieces: seq<string>, gap: string, fills: seq<string>, value: string, pos: nat)
    requires |pieces| == |fills| + 1 && pos <= |value|
    requires value[pos..] == gap + Weave(pieces, fills)
    ensures Floats(pieces, value, pos)
    decreases |pieces|
  {
    var i := pos + |gap|;
    if fills == [] {
      assert value[i..] == value[pos..][|gap|..] == pieces[0];
    } else {
      var tail := fills[0] + Weave(pieces[1..], fills[1..]);
      assert Weave(pieces, fills) == pieces[0] + tail;
      assert value[i..] == value[pos..][|gap|..] == pieces[0] + tail;
      assert value[i..i + |pieces[0]|] == value[i..][..|pieces[0]|] == pieces[0];
      assert value[i + |pieces[0]|..] == value[i..][|pieces[0]|..] == tail;
      WeaveFloats(pieces[1..], fills[0], fills[1..], value, i + |pieces[0]|);
      assert OccursAt(value, pieces[0], i);
    }
  }

  lemma {:induction false} FloatsWeave(pieces: seq<string>, value: string, pos: nat)
    returns (gap: string, fills: seq<string>)
    requires pieces != [] && Floats(pieces, value, pos)
    ensures pos <= |value| && |pieces| == |fills| + 1
    ensures value[pos..] == gap + Weave(pieces, fills)
    decreases |pieces|
  {
    if |pieces| == 1 {
      gap, fills := value[pos..|value| - |pieces[0]|], [];
    } else {
      var i: nat :| pos <= i && OccursAt(value, pieces[0], i) && Floats(pieces[1..], value, i + |pieces[0]|);
      var gap', fills' := FloatsWeave(pieces[1..], value, i + |pieces[0]|);
      gap, fills := value[pos..i], [gap'] + fills';
      assert fills[1..] == fills';
      assert value[i..] == value[i..i + |pieces[0]|] + value[i + |pieces[0]|..];
      assert value[pos..] == value[pos..i] + value[i..];
    }
  }

  lemma MatchFloats(pattern: string, value: string)
    requires Stars(pattern) > 0 && Matches(pattern, value)
    ensures StartsWith(value, Split(pattern)[0]) && Floats(Split(pattern)[1..], value, |Split(pattern)[0]|)
  {
    var pieces := Split(pattern);
    var first := pieces[0];
    var fills: seq<string> :| |fills| == Stars(pattern) && Fill(pattern, fills) == value;
    FillIsWeave(pattern, fills);
    var tail := fills[0] + Weave(pieces[1..], fills[1..]);
    assert value == first + tail;
    assert value[|first|..] == tail;
    WeaveFloats(pieces[1..], fills[0], fills[1..], value, |first|);
  }

  lemma FloatMatches(pattern: string, value: string)
    requires Stars(pattern) > 0
    requires StartsWith(value, Split(pattern)[0]) && Floats(Split(pattern)[1..], value, |Split(pattern)[0]|)
    ensures Matches(pattern, value)
  {
    var pieces := Split(pattern);
    var first := pieces[0];
    var gap, fills := FloatsWeave(pieces[1..], value, |first|);
    var all := [gap] + fills;
    FillIsWeave(pattern, all);
    calc {
      Fill(pattern, all);
      Weave(pieces, all);
      { assert all[1..] == fills; }
      first + gap + Weave(pieces[1..], fills);
      first + (gap + Weave(pieces[1..], fills));
      value[..|first|] + value[|first|..];
      value;
    }
  }

  /** Meaning in terms of pieces: the first piece is a prefix, the others float behind it. */
  lemma MatchesByPieces(pattern: string, value: string)
    requires Stars(pattern) > 0
    ensures Matches(pattern, value) <==>
            StartsWith(value, Split(pattern)[0]) && Floats(Split(pattern)[1..], value, |Split(pattern)[0]|)
  {
    if Matches(pattern, value) {
      MatchFloats(pattern, value);
    } else if StartsWith(value, Split(pattern)[0]) && Floats(Split(pattern)[1..], value, |Split(pattern)[0]|) {
      FloatMatches(pattern, value);
    }
  }

  lemma NoStars(pattern: string, value: string)
    requires Stars(pattern) == 0
    ensures Matches(pattern, value) <==> pattern == value
  {
    var none: seq<string> := [];
    FillIsWeave(pattern, none);
    SplitNoStars(pattern);
    assert Fill(pattern, none) == pattern;
    if Matches(pattern, value) {
      var fills: seq<string> :| |fills| == Stars(pattern) && Fill(pattern, fills) == value;
      assert fills == none;
    }
  }

  lemma {:induction false} SplitNoStars(pattern: string)
    requires Stars(pattern) == 0
    ensures Split(pattern) == [pattern]
  {
    if pattern == "" {
    } else {
      SplitNoStars(pattern[1..]);
      assert pattern == [pattern[0]] + pattern[1..];
    }
  }

  // ---------------------------------------------------------------- leftmost search is enough

  /** Leftmost placement of `parts`, one after the other, from `pos` on. */
  predicate Greedy(parts: seq<string>, value: string, pos: nat) {
    parts == [] ||
    (var index := IndexOf(value, parts[0], pos);
     index != -1 && Greedy(parts[1..], value, index + |parts[0]|))
  }

  /** The exchange step: whatever floats behind a later position floats behind an earlier one. */
  lemma FloatsEarlier(pieces: seq<string>, value: string, early: nat, late: nat)
    requires pieces != [] && early <= late && Floats(pieces, value, late)
    ensures Floats(pieces, value, early)
  {
    if |pieces| > 1 {
      var i: nat :| late <= i && OccursAt(value, pieces[0], i) && Floats(pieces[1..], value, i + |pieces[0]|);
    }
  }

  lemma FirstEmptyFloats(rest: seq<string>, value: string, pos: nat)
    requires rest != [] && pos <= |value|
    ensures Floats([""] + rest, value, pos) <==> Floats(rest, value, pos)
  {
    var pieces := [""] + rest;
    assert pieces[1..] == rest;
    if Floats(pieces, value, pos) {
      var i: nat :| pos <= i && OccursAt(value, "", i) && Floats(rest, value, i + |""|);
      FloatsEarlier(rest, value, pos, i);
    }
    if Floats(rest, value, pos) {
      FloatsBehind(rest, value, pos);
      assert OccursAt(value, pieces[0], pos) && Floats(pieces[1..], value, pos + |pieces[0]|);
    }
  }

  lemma {:induction false} FloatsBehind(pieces: seq<string>, value: string, pos: nat)
    requires pieces != [] && Floats(pieces, value, pos)
    ensures pos <= |value|
  {
    if |pieces| > 1 {
      var i: nat :| pos <= i && OccursAt(value, pieces[0], i) && Floats(pieces[1..], value, i + |pieces[0]|);
    }
  }

  lemma FirstLeftmostFloats(first: string, rest: seq<string>, value: string, pos: nat)
    requires rest != []
    ensures Floats([first] + rest, value, pos) <==>
            IndexOf(value, first, pos) != -1 && Floats(rest, value, IndexOf(value, first, pos) + |first|)
  {
    var pieces := [first] + rest;
    assert pieces[1..] == rest;
    var index := IndexOf(value, first, pos);
    if Floats(pieces, value, pos) {
      var i: nat :| pos <= i && OccursAt(value, first, i) && Floats(rest, value, i + |first|);
      FloatsEarlier(rest, value, index + |first|, i + |first|);
    }
    if index != -1 && Floats(rest, value, index + |first|) {
      assert OccursAt(value, pieces[0], index) && Floats(pieces[1..], value, index + |pieces[0]|);
    }
  }

  lemma DropEmptyCons(first: string, rest: seq<string>)
    ensures DropEmpty([first] + rest) == if first == "" then DropEmpty(rest) else [first] + DropEmpty(rest)
  {
    assert ([first] + rest)[1..] == rest;
  }

  lemma GreedyCons(first: string, rest: seq<string>, value: string, pos: nat)
    ensures Greedy([first] + rest, value, pos) <==>
            IndexOf(value, first, pos) != -1 && Greedy(rest, value, IndexOf(value, first, pos) + |first|)
  {
    assert ([first] + rest)[1..] == rest;
  }

  /** Leftmost placement of the non-empty pieces, with the end tested on its own, finds a
      placement exactly when there is one. */
  lemma {:induction false} GreedyIsComplete(pieces: seq<string>, value: string, pos: nat)
    requires pieces != [] && pos <= |value|
    ensures Floats(pieces, value, pos) <==>
            Greedy(DropEmpty(pieces), value, pos) && EndsWith(value, pieces[|pieces| - 1])
    decreases |pieces|
  {
    var first, rest := pieces[0], pieces[1..];
    assert pieces == [first] + rest;
    if rest == [] {
      OnlyPiece(first, value, pos);
    } else {
      assert rest[|rest| - 1] == pieces[|pieces| - 1];
      forall p: nat | p <= |value| {
        GreedyIsComplete(rest, value, p);
      }
      MorePieces(first, rest, value, pos);
    }
  }

  lemma MorePieces(first: string, rest: seq<string>, value: string, pos: nat)
    requires rest != [] && pos <= |value|
    requires forall p: nat :: p <= |value| ==>
               (Floats(rest, value, p) <==>
                Greedy(DropEmpty(rest), value, p) && EndsWith(value, rest[|rest| - 1]))
    ensures Floats([first] + rest, value, pos) <==>
            Greedy(DropEmpty([first] + rest), value, pos) && EndsWith(value, rest[|rest| - 1])
  {
    DropEmptyCons(first, rest);
    if first == "" {
      FirstEmptyFloats(rest, value, pos);
    } else {
      FirstLeftmostFloats(first, rest, value, pos);
      GreedyCons(first, DropEmpty(rest), value, pos);
    }
  }

  lemma OnlyPiece(piece: string, value: string, pos: nat)
    requires pos <= |value|
    ensures Floats([piece], value, pos) <==> Greedy(DropEmpty([piece]), value, pos) && EndsWith(value, piece)
  {
    assert [piece][1..] == [] && DropEmpty([]) == [];
    if piece != "" && EndsWith(value, piece) {
      assert DropEmpty([piece]) == [piece];
      assert OccursAt(value, piece, |value| - |piece|);
    }
  }

  lemma {:induction false} SplitEnds(pattern: string)
    requires pattern != ""
    ensures Split(pattern)[0] == "" <==> pattern[0] == '*'
    ensures Split(pattern)[Stars(pattern)] == "" <==> pattern[|pattern| - 1] == '*'
  {
    if |pattern| == 1 {
    } else {
      SplitEnds(pattern[1..]);
    }
  }

  lemma {:induction false} DropEmptyEnds(pieces: seq<string>)
    requires pieces != []
    ensures pieces[0] != "" ==> DropEmpty(pieces) != [] && DropEmpty(pieces)[0] == pieces[0]
    ensures pieces[|pieces| - 1] != "" ==>
              DropEmpty(pieces) != [] && DropEmpty(pieces)[|DropEmpty(pieces)| - 1] == pieces[|pieces| - 1]
  {
    if |pieces| > 1 {
      DropEmptyEnds(pieces[1..]);
    } else {
      assert DropEmpty(pieces[1..]) == [];
    }
  }

  /** What the code computes from the non-empty parts and the two flags. */
  predicate Search(pattern: string, value: string)
    requires Stars(pattern) > 0
  {
    var parts := DropEmpty(Split(pattern));
    parts == [] ||
    (Greedy(parts, value, 0) &&
     (pattern[0] == '*' || StartsWith(value, parts[0])) &&
     (pattern[|pattern| - 1] == '*' || EndsWith(value, parts[|parts| - 1])))
  }

  lemma {:induction false} LeadingStar(pattern: string, value: string)
    requires Stars(pattern) > 0 && pattern[0] == '*'
    ensures Matches(pattern, value) <==> Search(pattern, value)
  {
    var pieces := Split(pattern);
    MatchesByPieces(pattern, value);
    SplitEnds(pattern);
    DropEmptyEnds(pieces);
    assert DropEmpty(pieces) == DropEmpty(pieces[1..]);
    GreedyIsComplete(pieces[1..], value, 0);
  }

  lemma LeadingLiteral(pattern: string, value: string)
    requires Stars(pattern) > 0 && pattern[0] != '*'
    ensures Matches(pattern, value) <==> Search(pattern, value)
  {
    var pieces := Split(pattern);
    var first, rest := pieces[0], pieces[1..];
    MatchesByPieces(pattern, value);
    SplitEnds(pattern);
    DropEmptyEnds(pieces);
    assert pieces == [first] + rest;
    DropEmptyCons(first, rest);
    GreedyCons(first, DropEmpty(rest), value, 0);
    if StartsWith(value, first) {
      assert OccursAt(value, first, 0);
      assert IndexOf(value, first, 0) == 0;
      GreedyIsComplete(rest, value, |first|);
      assert rest[|rest| - 1] == pieces[|pieces| - 1];
    }
  }

  /** The search decides the meaning of the pattern. */
  lemma {:induction false} SearchDecides(pattern: string, value: string)
    requires Stars(pattern) > 0
    ensures Matches(pattern, value) <==> Search(pattern, value)
  {
    if pattern[0] == '*' {
      LeadingStar(pattern, value);
    } else {
      LeadingLiteral(pattern, value);
    }
  }

  // ---------------------------------------------------------------- the code

  method MatchesWildcardPattern(value: string, pattern: string) returns (ok: bool)
    ensures ok <==> Matches(pattern, value)
  {
    StarsIsCount(pattern);
    if '*' !in pattern {
      NoStars(pattern, value);
      return value == pattern;
    }
    SearchDecides(pattern, value);

    var parts := DropEmpty(Split(pattern));
    if |parts| == 0 {
      return true;
    }
    var firstPart, lastPart := parts[0], parts[|parts| - 1];

    var placed := PlaceParts(parts, value);
    if !placed {
      return false;
    }

    var hasLeadingWildcard := pattern[0] == '*';
    var hasTrailingWildcard := pattern[|pattern| - 1] == '*';
    var isStartOk := hasLeadingWildcard || StartsWith(value, firstPart);
    var isEndOk := hasTrailingWildcard || EndsWith(value, lastPart);
    return isStartOk && isEndOk;
  }

  /** The loop that advances `position` from part to part. */
  method PlaceParts(parts: seq<string>, value: string) returns (placed: bool)
    ensures placed <==> Greedy(parts, value, 0)
  {
    var position: nat := 0;
    for k := 0 to |parts|
      invariant Greedy(parts, value, 0) <==> Greedy(parts[k..], value, position)
    {
      assert parts[k..][1..] == parts[k + 1..];
      var index := IndexOf(value, parts[k], position);
      if index == -1 {
        return false;
      }
      position := index + |parts[k]|;
    }
    return true;
  }

  lemma {:induction false} StarsIsCount(pattern: string)
    ensures Stars(pattern) > 0 <==> '*' in pattern
  {
    if pattern == "" {
    } else {
      StarsIsCount(pattern[1..]);
      assert pattern == [pattern[0]] + pattern[1..];
    }
  }

  method MatchesPattern(queueName: string, pattern: string) returns (ok: bool)
    ensures ok <==> Matches(pattern, queueName)
  {
    if pattern == "*" {
      StarMatchesAll(queueName);
      return true;
    }
    if pattern == queueName {
      MatchesItself(pattern);
      return true;
    }
    ok := MatchesWildcardPattern(queueName, pattern);
  }

  lemma StarMatchesAll(value: string)
    ensures Matches("*", value)
  {
    var fills := [value];
    assert Fill("*"[1..], []) == "";
    assert Fill("*", fills) == value + "" == value;
  }

  lemma {:induction false} MatchesItself(pattern: string)
    ensures Matches(pattern, pattern)
  {
    var fills := seq(Stars(pattern), i => "*");
    FillWithStars(pattern, fills);
  }

  lemma {:induction false} FillWithStars(pattern: string, fills: seq<string>)
    requires |fills| == Stars(pattern) && forall i :: 0 <= i < |fills| ==> fills[i] == "*"
    ensures Fill(pattern, fills) == pattern
  {
    if pattern == "" {
    } else {
      if pattern[0] == '*' {
        FillWithStars(pattern[1..], fills[1..]);
      } else {
        FillWithStars(pattern[1..], fills);
      }
    }
  }
}
