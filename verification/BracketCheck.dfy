// The rule itself: an `.orWhere(` must stand inside the parentheses of some `new Brackets(`.
module BracketCheck {
  import opened Prelude
  import opened LineNumbers
  import opened SourceScanner

  // ----- Matching parentheses -----

  // Opening minus closing parentheses in s[from..to].
  ghost function Depth(s: string, from: nat, to: nat): int
    requires from <= to <= |s|
  {
    if from == to then 0 else
      Depth(s, from, to - 1) + (if s[to - 1] == '(' then 1 else if s[to - 1] == ')' then -1 else 0)
  }

  // `close` is the first closing parenthesis at which the depth counted from `open` is zero.
  ghost predicate Closes(s: string, open: nat, close: nat) {
    && open <= close < |s| && s[close] == ')' && Depth(s, open, close + 1) == 0
    && forall j :: open <= j < close && s[j] == ')' ==> Depth(s, open, j + 1) != 0
  }

  method FindMatchingParen(s: string, open: nat) returns (close: int)
    ensures close == -1 <==> !exists c: nat :: Closes(s, open, c)
    ensures close != -1 ==> close >= 0 && Closes(s, open, close)
  {
    var depth := 0;
    var i := open;
    while i < |s|
      invariant open <= |s| ==> open <= i <= |s| && depth == Depth(s, open, i)
      invariant open > |s| ==> i == open
      invariant forall j :: open <= j < i && s[j] == ')' ==> Depth(s, open, j + 1) != 0
    {
      if s[i] == '(' {
        depth := depth + 1;
      } else if s[i] == ')' {
        depth := depth - 1;
        if depth == 0 {
          assert Closes(s, open, i);
          return i;
        }
      }
      i := i + 1;
    }
    close := -1;
  }

  // The depth is what was opened less what was closed.
  lemma {:induction false} DepthCounts(s: string, from: nat, to: nat)
    requires from <= to <= |s|
    ensures Depth(s, from, to) + multiset(s[from..to])[')'] == multiset(s[from..to])['(']
  {
    if from < to {
      DepthCounts(s, from, to - 1);
      assert s[from..to] == s[from..to - 1] + [s[to - 1]];
    }
  }

  // Counted from an opening parenthesis, what comes before its closing one is nested in it.
  lemma {:induction false} ClosedIsBalanced(s: string, open: nat, close: nat, j: nat)
    requires Closes(s, open, close) && s[open] == '(' && open < j <= close
    ensures Depth(s, open, j) >= 1
  {
    if j > open + 1 {
      ClosedIsBalanced(s, open, close, j - 1);
    }
  }

  lemma CloseIsUnique(s: string, open: nat, c: nat, d: nat)
    requires Closes(s, open, c) && Closes(s, open, d)
    ensures c == d
  {
  }

  // ----- The two patterns -----

  function SkipSpace(s: string, i: nat): (j: nat)
    requires i <= |s|
    ensures i <= j <= |s| && (j < |s| ==> !IsSpace(s[j]))
    ensures forall k :: i <= k < j ==> IsSpace(s[k])
    decreases |s| - i
  {
    if i < |s| && IsSpace(s[i]) then SkipSpace(s, i + 1) else i
  }

  predicate HasAt(s: string, i: nat, word: string) {
    i + |word| <= |s| && s[i..i + |word|] == word
  }

  datatype Pattern = NewBrackets | OrWhere

  // The index of the parenthesis that ends a match starting at `i`, if there is a match:
  // new\s+Brackets\s*\(  or  \.orWhere\s*\(
  function MatchAt(p: Pattern, s: string, i: nat): (end: Option<nat>)
    ensures end.Some? ==> i < end.value < |s| && s[end.value] == '('
  {
    match p
    case NewBrackets =>
      if !HasAt(s, i, "new") then None else
        var j := SkipSpace(s, i + 3);
        if j == i + 3 || !HasAt(s, j, "Brackets") then None else ParenAfter(s, j + 8)
    case OrWhere =>
      if !HasAt(s, i, ".orWhere") then None else ParenAfter(s, i + 8)
  }

  function ParenAfter(s: string, i: nat): (end: Option<nat>)
    requires i <= |s|
    ensures end.Some? ==> i <= end.value < |s| && s[end.value] == '(' && forall k :: i <= k < end.value ==> IsSpace(s[k])
  {
    var j := SkipSpace(s, i);
    if j < |s| && s[j] == '(' then Some(j) else None
  }

  // An occurrence of a pattern from `i` to its parenthesis at `e`, character by character.
  ghost predicate OrWhereAt(s: string, i: nat, e: nat) {
    && i + 8 <= e < |s| && s[i..i + 8] == ".orWhere"
    && (forall k :: i + 8 <= k < e ==> IsSpace(s[k])) && s[e] == '('
  }

  ghost predicate NewBracketsAt(s: string, i: nat, e: nat) {
    exists b: nat :: NewThenBrackets(s, i, b, e)
  }

  // At least one space between the words.
  ghost predicate NewThenBrackets(s: string, i: nat, b: nat, e: nat) {
    && i + 3 < b && b + 8 <= e < |s| && s[i..i + 3] == "new" && s[b..b + 8] == "Brackets"
    && (forall k :: i + 3 <= k < b ==> IsSpace(s[k])) && (forall k :: b + 8 <= k < e ==> IsSpace(s[k])) && s[e] == '('
  }

  ghost predicate Occurs(p: Pattern, s: string, i: nat, e: nat) {
    match p
    case NewBrackets => NewBracketsAt(s, i, e)
    case OrWhere => OrWhereAt(s, i, e)
  }

  lemma {:induction false} SkippedTo(s: string, i: nat, j: nat)
    requires i <= j < |s| && !IsSpace(s[j]) && forall k :: i <= k < j ==> IsSpace(s[k])
    ensures SkipSpace(s, i) == j
    decreases j - i
  {
    if i < j {
      SkippedTo(s, i + 1, j);
    }
  }

  // The pattern matches where it occurs, and nowhere else.
  lemma MatchesExactly(p: Pattern, s: string, i: nat, e: nat)
    ensures MatchAt(p, s, i) == Some(e) <==> Occurs(p, s, i, e)
  {
    if MatchAt(p, s, i) == Some(e) {
      MatchOccurs(p, s, i);
    } else if Occurs(p, s, i, e) {
      OccurrenceMatches(p, s, i, e);
    }
  }

  lemma MatchOccurs(p: Pattern, s: string, i: nat)
    requires MatchAt(p, s, i).Some?
    ensures Occurs(p, s, i, MatchAt(p, s, i).value)
  {
    if p == NewBrackets {
      assert NewThenBrackets(s, i, SkipSpace(s, i + 3), MatchAt(p, s, i).value);
    }
  }

  lemma OccurrenceMatches(p: Pattern, s: string, i: nat, e: nat)
    requires Occurs(p, s, i, e)
    ensures MatchAt(p, s, i) == Some(e)
  {
    match p
    case OrWhere => ParenIsNext(s, i + 8, e);
    case NewBrackets =>
      var b: nat :| NewThenBrackets(s, i, b, e);
      assert s[b] == s[b..b + 8][0] == 'B';
      SkippedTo(s, i + 3, b);
      ParenIsNext(s, b + 8, e);
  }

  lemma ParenIsNext(s: string, i: nat, e: nat)
    requires i <= e < |s| && s[e] == '(' && forall k :: i <= k < e ==> IsSpace(s[k])
    ensures ParenAfter(s, i) == Some(e)
  {
    SkippedTo(s, i, e);
  }

  lemma OrWhereMatches(s: string)
    ensures forall i: nat :: MatchAt(OrWhere, s, i).Some? <==> exists e: nat :: OrWhereAt(s, i, e)
  {
    forall i: nat
      ensures MatchAt(OrWhere, s, i).Some? <==> exists e: nat :: OrWhereAt(s, i, e)
    {
      if MatchAt(OrWhere, s, i).Some? {
        MatchesExactly(OrWhere, s, i, MatchAt(OrWhere, s, i).value);
      }
      if e: nat :| OrWhereAt(s, i, e) {
        MatchesExactly(OrWhere, s, i, e);
      }
    }
  }

  function FirstChar(p: Pattern): char {
    if p == NewBrackets then 'n' else '.'
  }

  // Inside a match there is neither another match nor an earlier parenthesis.
  lemma MatchInside(p: Pattern, s: string, i: nat, k: nat)
    requires MatchAt(p, s, i).Some? && i < k <= MatchAt(p, s, i).value
    ensures MatchAt(p, s, k).None? && (s[k] == '(' ==> k == MatchAt(p, s, i).value)
    ensures s[i] != '('
  {
    InsideChars(p, s, i, k);
    if MatchAt(p, s, k).Some? {
      MatchStarts(p, s, k);
    }
    MatchStarts(p, s, i);
  }

  lemma MatchStarts(p: Pattern, s: string, i: nat)
    requires MatchAt(p, s, i).Some?
    ensures s[i] == FirstChar(p)
  {
    match p
    case NewBrackets => assert s[i] == s[i..i + 3][0] == "new"[0];
    case OrWhere => assert s[i] == s[i..i + 8][0] == ".orWhere"[0];
  }

  lemma InsideChars(p: Pattern, s: string, i: nat, k: nat)
    requires MatchAt(p, s, i).Some? && i < k <= MatchAt(p, s, i).value
    ensures s[k] != FirstChar(p) && (s[k] == '(' ==> k == MatchAt(p, s, i).value)
  {
    match p
    case NewBrackets =>
      var j := SkipSpace(s, i + 3);
      if k < i + 3 {
        assert s[k] == s[i..i + 3][k - i] == "new"[k - i];
      } else if j <= k < j + 8 {
        assert s[k] == s[j..j + 8][k - j] == "Brackets"[k - j];
      }
    case OrWhere =>
      if k < i + 8 {
        assert s[k] == s[i..i + 8][k - i] == ".orWhere"[k - i];
      }
  }

  // RegExp.exec with a global pattern: the first match at or after lastIndex.
  method Exec(p: Pattern, s: string, lastIndex: nat) returns (index: Option<nat>)
    ensures index.None? ==> forall i: nat :: i >= lastIndex ==> MatchAt(p, s, i).None?
    ensures index.Some? ==> index.value >= lastIndex && MatchAt(p, s, index.value).Some?
    ensures index.Some? ==> forall i: nat :: lastIndex <= i < index.value ==> MatchAt(p, s, i).None?
  {
    var i := lastIndex;
    while i < |s|
      invariant i >= lastIndex
      invariant forall k: nat :: lastIndex <= k < i ==> MatchAt(p, s, k).None?
      decreases |s| - i
    {
      if MatchAt(p, s, i).Some? {
        return Some(i);
      }
      i := i + 1;
    }
    index := None;
  }

  method IndexOfParen(s: string, from: nat) returns (i: int)
    ensures i == -1 ==> forall k :: from <= k < |s| ==> s[k] != '('
    ensures i != -1 ==> from <= i < |s| && s[i] == '(' && forall k :: from <= k < i ==> s[k] != '('
  {
    i := from;
    while i < |s|
      invariant from <= i && forall k :: from <= k < i && k < |s| ==> s[k] != '('
    {
      if s[i] == '(' {
        return i;
      }
      i := i + 1;
    }
    i := -1;
  }

  // ----- The check -----

  datatype OffsetRange = OffsetRange(start: nat, end: nat)

  // The parentheses of a `new Brackets(` that are closed.
  ghost predicate IsBracketRange(s: string, r: OffsetRange) {
    exists i: nat :: NewBracketsAt(s, i, r.start) && Closes(s, r.start, r.end)
  }

  ghost predicate BracketRangeAt(s: string, r: OffsetRange, i: nat) {
    MatchAt(NewBrackets, s, i) == Some(r.start) && Closes(s, r.start, r.end)
  }

  ghost predicate RangesBefore(s: string, ranges: seq<OffsetRange>, limit: nat) {
    forall r :: r in ranges <==> exists i: nat :: i < limit && BracketRangeAt(s, r, i)
  }

  // A match ends in the only parenthesis it holds, and no other match starts inside it.
  lemma BracketsEndInParen(s: string, at: nat, end: nat)
    requires MatchAt(NewBrackets, s, at) == Some(end)
    ensures at < end < |s| && s[end] == '(' && (forall k: nat :: at <= k < end ==> s[k] != '(')
    ensures forall k: nat :: at < k <= end ==> MatchAt(NewBrackets, s, k).None?
  {
    forall k: nat | at < k <= end
      ensures MatchAt(NewBrackets, s, k).None? && (s[k] == '(' ==> k == end) && s[at] != '('
    {
      MatchInside(NewBrackets, s, at, k);
    }
  }

  method FindBracketRanges(s: string) returns (ranges: seq<OffsetRange>)
    ensures forall r :: r in ranges <==> IsBracketRange(s, r)
  {
    ranges := [];
    var lastIndex := 0;
    var index := Exec(NewBrackets, s, 0);
    while index.Some?
      invariant RangesBefore(s, ranges, lastIndex)
      invariant index.None? ==> forall i: nat :: i >= lastIndex ==> MatchAt(NewBrackets, s, i).None?
      invariant index.Some? ==> index.value >= lastIndex && MatchAt(NewBrackets, s, index.value).Some?
      invariant index.Some? ==> forall i: nat :: lastIndex <= i < index.value ==> MatchAt(NewBrackets, s, i).None?
      decreases |s| - lastIndex, index.Some?
    {
      var at := index.value;
      var end := MatchAt(NewBrackets, s, at).value;
      BracketsEndInParen(s, at, end);
      var openParenIndex := IndexOfParen(s, at);
      assert openParenIndex == end;
      var closeParenIndex := FindMatchingParen(s, openParenIndex);
      ghost var before := ranges;
      if closeParenIndex != -1 {
        ranges := ranges + [OffsetRange(openParenIndex, closeParenIndex)];
      }
      AddRange(s, before, ranges, lastIndex, at, end);
      lastIndex := end + 1;
      index := Exec(NewBrackets, s, lastIndex);
    }
    AllRanges(s, ranges, lastIndex);
  }

  // Beyond the last match there is no range.
  lemma AllRanges(s: string, ranges: seq<OffsetRange>, lastIndex: nat)
    requires RangesBefore(s, ranges, lastIndex)
    requires forall i: nat :: i >= lastIndex ==> MatchAt(NewBrackets, s, i).None?
    ensures forall r :: r in ranges <==> IsBracketRange(s, r)
  {
    forall r
      ensures r in ranges <==> IsBracketRange(s, r)
    {
      if r in ranges {
        var i: nat :| i < lastIndex && BracketRangeAt(s, r, i);
        MatchesExactly(NewBrackets, s, i, r.start);
      }
      if IsBracketRange(s, r) {
        var i: nat :| NewBracketsAt(s, i, r.start) && Closes(s, r.start, r.end);
        MatchesExactly(NewBrackets, s, i, r.start);
        assert BracketRangeAt(s, r, i);
      }
    }
  }

  // Moving past one match adds the range that it opens, if it is closed, and no other.
  lemma AddRange(s: string, before: seq<OffsetRange>, ranges: seq<OffsetRange>, lastIndex: nat, at: nat, end: nat)
    requires RangesBefore(s, before, lastIndex) && lastIndex <= at && MatchAt(NewBrackets, s, at) == Some(end)
    requires forall i: nat :: lastIndex <= i <= end && i != at ==> MatchAt(NewBrackets, s, i).None?
    requires || (ranges == before && !exists c: nat :: Closes(s, end, c))
             || (exists c: nat :: Closes(s, end, c) && ranges == before + [OffsetRange(end, c)])
    ensures RangesBefore(s, ranges, end + 1)
  {
    forall r
      ensures r in ranges <==> exists i: nat :: i < end + 1 && BracketRangeAt(s, r, i)
    {
      assert BracketRangeAt(s, r, at) <==> r.start == end && Closes(s, end, r.end);
      if r.start == end && Closes(s, end, r.end) {
        var c: nat :| Closes(s, end, c) && ranges == before + [OffsetRange(end, c)];
        CloseIsUnique(s, end, c, r.end);
      }
      assert (exists i: nat :: i < end + 1 && BracketRangeAt(s, r, i))
        <==> (exists i: nat :: i < lastIndex && BracketRangeAt(s, r, i)) || BracketRangeAt(s, r, at);
    }
  }

  predicate IsInsideRange(offset: nat, ranges: seq<OffsetRange>) {
    exists i :: 0 <= i < |ranges| && ranges[i].start < offset < ranges[i].end
  }

  // What the rule allows: strictly inside the closed parentheses of a `new Brackets(`.
  ghost predicate Bracketed(s: string, offset: nat) {
    exists r :: IsBracketRange(s, r) && r.start < offset < r.end
  }

  ghost predicate IsViolation(s: string, offset: nat) {
    (exists e: nat :: OrWhereAt(s, offset, e)) && !Bracketed(s, offset)
  }

  datatype Violation = Violation(offset: nat, line: nat)

  // `vs` lists every violation, in order, each with its line, and nothing else.
  ghost predicate ListsViolations(source: string, vs: seq<Violation>) {
    && (forall i, j :: 0 <= i < j < |vs| ==> vs[i].offset < vs[j].offset)
    && (forall i :: 0 <= i < |vs| ==> vs[i].offset < |source| && vs[i].line == LineOf(source, vs[i].offset))
    && (forall o: nat :: IsViolation(Sanitized(source), o) <==> exists i :: 0 <= i < |vs| && vs[i].offset == o)
  }

  // The same up to an offset, in terms of the matcher.
  ghost predicate IsReported(s: string, offset: nat) {
    MatchAt(OrWhere, s, offset).Some? && !Bracketed(s, offset)
  }

  ghost predicate ListsReported(source: string, vs: seq<Violation>, limit: nat) {
    && (forall i, j :: 0 <= i < j < |vs| ==> vs[i].offset < vs[j].offset)
    && (forall i :: 0 <= i < |vs| ==> vs[i].offset < limit && vs[i].line == LineOf(source, vs[i].offset))
    && (forall o: nat :: o < limit ==> (IsReported(Sanitized(source), o) <==> exists i :: 0 <= i < |vs| && vs[i].offset == o))
  }

  // Beyond the last match there is no violation.
  lemma AllViolations(source: string, vs: seq<Violation>, lastIndex: nat)
    requires lastIndex <= |source| && ListsReported(source, vs, lastIndex)
    requires forall o: nat :: o >= lastIndex ==> MatchAt(OrWhere, Sanitized(source), o).None?
    ensures ListsViolations(source, vs)
  {
    OrWhereMatches(Sanitized(source));
    forall o: nat
      ensures IsViolation(Sanitized(source), o) <==> exists i :: 0 <= i < |vs| && vs[i].offset == o
    {
      assert IsViolation(Sanitized(source), o) <==> IsReported(Sanitized(source), o);
      assert o >= lastIndex ==> !IsReported(Sanitized(source), o);
    }
  }

  // The report of a file: every violation, in order, each with its line, and nothing else.
  method CheckFile(source: string) returns (violations: seq<Violation>)
    ensures ListsViolations(source, violations)
  {
    var sanitized := SanitizeForScanning(source);
    SanitizedShape(source);
    var lineStarts := BuildLineStarts(source);
    var bracketRanges := FindBracketRanges(sanitized);
    violations := [];
    var lastIndex := 0;
    var index := Exec(OrWhere, sanitized, 0);
    while index.Some?
      invariant lastIndex <= |source| && ListsReported(source, violations, lastIndex)
      invariant index.None? ==> forall i: nat :: i >= lastIndex ==> MatchAt(OrWhere, sanitized, i).None?
      invariant index.Some? ==> index.value >= lastIndex && MatchAt(OrWhere, sanitized, index.value).Some?
      invariant index.Some? ==> forall i: nat :: lastIndex <= i < index.value ==> MatchAt(OrWhere, sanitized, i).None?
      decreases |source| - lastIndex
    {
      var offset := index.value;
      var end := MatchAt(OrWhere, sanitized, offset).value;
      forall k: nat | offset < k <= end
        ensures MatchAt(OrWhere, sanitized, k).None?
      {
        MatchInside(OrWhere, sanitized, offset, k);
      }
      var inside := IsInsideRange(offset, bracketRanges);
      InsideIsBracketed(sanitized, bracketRanges, offset);
      ghost var before := violations;
      if !inside {
        var line := GetLineNumber(source, lineStarts, offset);
        violations := violations + [Violation(offset, line)];
      }
      AddViolation(source, before, violations, lastIndex, offset, end);
      lastIndex := end + 1;
      index := Exec(OrWhere, sanitized, lastIndex);
    }
    AllViolations(source, violations, lastIndex);
  }

  lemma InsideIsBracketed(s: string, ranges: seq<OffsetRange>, offset: nat)
    requires forall r :: r in ranges <==> IsBracketRange(s, r)
    ensures IsInsideRange(offset, ranges) <==> Bracketed(s, offset)
  {
    if Bracketed(s, offset) {
      var r :| IsBracketRange(s, r) && r.start < offset < r.end;
      assert r in ranges;
    }
    if IsInsideRange(offset, ranges) {
      var i :| 0 <= i < |ranges| && ranges[i].start < offset < ranges[i].end;
      assert ranges[i] in ranges;
    }
  }

  lemma AddViolation(source: string, before: seq<Violation>, vs: seq<Violation>, lastIndex: nat, offset: nat, end: nat)
    requires ListsReported(source, before, lastIndex) && lastIndex <= offset
    requires MatchAt(OrWhere, Sanitized(source), offset) == Some(end)
    requires forall o: nat :: lastIndex <= o <= end && o != offset ==> MatchAt(OrWhere, Sanitized(source), o).None?
    requires vs == if Bracketed(Sanitized(source), offset) then before
                   else before + [Violation(offset, LineOf(source, offset))]
    ensures ListsReported(source, vs, end + 1)
  {
    forall o: nat | o < end + 1
      ensures IsReported(Sanitized(source), o) <==> exists i :: 0 <= i < |vs| && vs[i].offset == o
    {
      if o == offset && vs != before {
        assert vs[|vs| - 1].offset == o;
      } else if o < lastIndex && IsReported(Sanitized(source), o) {
        var i :| 0 <= i < |before| && before[i].offset == o;
        assert vs[i].offset == o;
      }
    }
  }

  // What is in a literal or a comment is never reported: the reported text is in the source.
  lemma ReportedTextIsInSource(source: string, offset: nat, k: nat)
    requires IsViolation(Sanitized(source), offset) && k < 8
    ensures offset + k < |source| && source[offset + k] == ".orWhere"[k]
  {
    var s := Sanitized(source);
    SanitizedShape(source);
    assert s[offset + k] == s[offset..offset + 8][k] == ".orWhere"[k];
    assert source[offset + k] == s[offset + k];
  }
}
