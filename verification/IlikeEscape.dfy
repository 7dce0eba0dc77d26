// Escaping a search term for LIKE, against a LIKE matcher with backslash as escape character.
module IlikeEscape {
  import opened Prelude

  // ----- The matcher: section 9.7.1 of the PostgreSQL documentation -----

  // A pattern that ends in a dangling escape is an error.
  datatype Match = Yes | No | DanglingEscape

  // Dangling escapes are only noticed when the match gets that far; here any makes an error.
  predicate Dangles(pattern: string) {
    pattern != [] && if pattern[0] == '\\' then |pattern| == 1 || Dangles(pattern[2..]) else Dangles(pattern[1..])
  }

  predicate Matches(pattern: string, text: string)
    decreases |pattern|, |text|
  {
    if pattern == [] then text == []
    else if pattern[0] == '%' then Matches(pattern[1..], text) || (text != [] && Matches(pattern, text[1..]))
    else if pattern[0] == '_' then text != [] && Matches(pattern[1..], text[1..])
    else if pattern[0] == '\\' then
      |pattern| >= 2 && text != [] && text[0] == pattern[1] && Matches(pattern[2..], text[1..])
    else text != [] && text[0] == pattern[0] && Matches(pattern[1..], text[1..])
  }

  function Like(pattern: string, text: string): Match {
    if Dangles(pattern) then DanglingEscape else if Matches(pattern, text) then Yes else No
  }

  // An underscore stands for one character, an escaped character for itself.
  lemma OneCharacter(c: char, text: string)
    ensures Like("_", text) == if |text| == 1 then Yes else No
    ensures Like(['\\', c], text) == if text == [c] then Yes else No
    ensures Like("\\", text) == DanglingEscape
  {
    var escaped := ['\\', c];
    assert escaped[2..] == [] && "_"[1..] == [];
    assert Matches(escaped, text) <==> text != [] && text[0] == c && Matches([], text[1..]);
    assert Matches("_", text) <==> text != [] && Matches([], text[1..]);
    if text != [] {
      assert text == [text[0]] + text[1..];
    }
  }

  // ----- Escaping -----

  function ReplaceAll(s: string, c: char, to: string): string {
    if s == [] then [] else (if s[0] == c then to else [s[0]]) + ReplaceAll(s[1..], c, to)
  }

  // Backslash first, then the two wildcards.
  function EscapeLike(value: string): string {
    ReplaceAll(ReplaceAll(ReplaceAll(value, '\\', "\\\\"), '%', "\\%"), '_', "\\_")
  }

  predicate IsSpecial(c: char) {
    c == '\\' || c == '%' || c == '_'
  }

  function EscapeChar(c: char): string {
    if IsSpecial(c) then ['\\', c] else [c]
  }

  function EscapeEach(value: string): string {
    if value == [] then [] else EscapeChar(value[0]) + EscapeEach(value[1..])
  }

  lemma {:induction false} ReplaceAllAppend(s: string, t: string, c: char, to: string)
    ensures ReplaceAll(s + t, c, to) == ReplaceAll(s, c, to) + ReplaceAll(t, c, to)
  {
    if s == [] {
      assert s + t == t;
    } else {
      var head, tail, last := if s[0] == c then to else [s[0]], ReplaceAll(s[1..], c, to), ReplaceAll(t, c, to);
      ReplaceAllAppend(s[1..], t, c, to);
      assert (s + t)[0] == s[0] && (s + t)[1..] == s[1..] + t;
      assert ReplaceAll(s + t, c, to) == head + (tail + last);
      assert head + (tail + last) == (head + tail) + last;
    }
  }

  // The three passes are one pass, character by character: no pass touches what an earlier
  // one put in, except to leave it alone.
  lemma {:induction false} ThreePassesAreOne(value: string)
    ensures EscapeLike(value) == EscapeEach(value)
  {
    if value != [] {
      var c, rest := value[0], value[1..];
      ThreePassesAreOne(rest);
      var first := if c == '\\' then "\\\\" else [c];
      var second := if c == '%' then "\\%" else first;
      ReplaceAllAppend(first, ReplaceAll(rest, '\\', "\\\\"), '%', "\\%");
      ReplaceOne(first, '%', "\\%");
      ReplaceAllAppend(second, ReplaceAll(ReplaceAll(rest, '\\', "\\\\"), '%', "\\%"), '_', "\\_");
      ReplaceOne(second, '_', "\\_");
    }
  }

  lemma ReplaceOne(s: string, c: char, to: string)
    requires 1 <= |s| <= 2
    ensures |s| == 1 ==> ReplaceAll(s, c, to) == if s[0] == c then to else s
    ensures |s| == 2 && s[0] != c && s[1] != c ==> ReplaceAll(s, c, to) == s
  {
    if |s| == 2 {
      assert ReplaceAll(s[1..], c, to) == (if s[1] == c then to else [s[1]]) + ReplaceAll(s[2..], c, to);
    }
  }

  function Unescape(s: string): string {
    if s == [] then []
    else if s[0] == '\\' && |s| >= 2 then [s[1]] + Unescape(s[2..])
    else [s[0]] + Unescape(s[1..])
  }

  lemma {:induction false} EscapingCanBeUndone(value: string)
    ensures Unescape(EscapeLike(value)) == value
  {
    ThreePassesAreOne(value);
    if value != [] {
      EscapingCanBeUndone(value[1..]);
      ThreePassesAreOne(value[1..]);
      var rest := EscapeEach(value[1..]);
      if IsSpecial(value[0]) {
        assert (['\\', value[0]] + rest)[2..] == rest;
      } else {
        assert ([value[0]] + rest)[1..] == rest;
      }
    }
  }

  // ----- Searching -----

  predicate OccursAt(text: string, s: string, i: nat) {
    i + |s| <= |text| && text[i..i + |s|] == s
  }

  ghost predicate Contains(text: string, s: string) {
    exists i: nat :: OccursAt(text, s, i)
  }

  // An escaped text before `rest` matches exactly itself before what `rest` matches.
  lemma {:induction false} EscapedMatchesItself(s: string, rest: string, text: string)
    ensures Matches(EscapeEach(s) + rest, text) <==> s <= text && Matches(rest, text[|s|..])
    ensures Dangles(EscapeEach(s) + rest) <==> Dangles(rest)
  {
    var pattern := EscapeEach(s) + rest;
    if s == [] {
      assert pattern == rest && text[0..] == text;
    } else {
      var shorter := EscapeEach(s[1..]) + rest;
      assert pattern == EscapeChar(s[0]) + shorter;
      assert pattern[|EscapeChar(s[0])|..] == shorter;
      if text != [] {
        EscapedMatchesItself(s[1..], rest, text[1..]);
        assert s <= text <==> s[0] == text[0] && s[1..] <= text[1..];
        assert s <= text ==> text[|s|..] == text[1..][|s[1..]|..];
      } else {
        EscapedMatchesItself(s[1..], rest, []);
      }
    }
  }

  lemma {:induction false} PercentMatchesAnything(text: string)
    ensures Matches("%", text)
  {
    if text != [] {
      PercentMatchesAnything(text[1..]);
    }
    assert "%"[1..] == [];
  }

  lemma {:induction false} PercentFirst(pattern: string, text: string)
    ensures Matches("%" + pattern, text) <==> exists i :: 0 <= i <= |text| && Matches(pattern, text[i..])
  {
    assert ("%" + pattern)[1..] == pattern;
    assert text[0..] == text;
    if text != [] {
      PercentFirst(pattern, text[1..]);
      assert forall i :: 1 <= i <= |text| ==> text[i..] == text[1..][i - 1..];
      if i :| 0 <= i <= |text[1..]| && Matches(pattern, text[1..][i..]) {
        assert Matches(pattern, text[i + 1..]);
      }
      if i :| 0 <= i <= |text| && Matches(pattern, text[i..]) {
        assert i > 0 ==> Matches(pattern, text[1..][i - 1..]);
      }
    }
  }

  function SearchPattern(s: string): string {
    "%" + EscapeLike(s) + "%"
  }

  lemma MiddleMatches(s: string, text: string, i: nat)
    requires i <= |text|
    ensures Matches(EscapeEach(s) + "%", text[i..]) <==> OccursAt(text, s, i)
  {
    EscapedMatchesItself(s, "%", text[i..]);
    if s <= text[i..] {
      PercentMatchesAnything(text[i..][|s|..]);
    }
    if i + |s| <= |text| {
      assert text[i..][..|s|] == text[i..i + |s|];
    }
  }

  lemma SearchPatternIsSound(s: string)
    ensures SearchPattern(s) == "%" + (EscapeEach(s) + "%") && !Dangles(SearchPattern(s))
  {
    ThreePassesAreOne(s);
    EscapedMatchesItself(s, "%", "");
    assert SearchPattern(s)[1..] == EscapeEach(s) + "%";
    assert "%"[1..] == [];
  }

  // A search for s finds exactly the texts that contain s, and is never an error.
  lemma SearchFindsSubstrings(s: string, text: string)
    ensures Like(SearchPattern(s), text) == if Contains(text, s) then Yes else No
  {
    SearchPatternIsSound(s);
    var middle := EscapeEach(s) + "%";
    PercentFirst(middle, text);
    if Matches("%" + middle, text) {
      var i :| 0 <= i <= |text| && Matches(middle, text[i..]);
      MiddleMatches(s, text, i);
      assert OccursAt(text, s, i);
    }
    if Contains(text, s) {
      var i: nat :| OccursAt(text, s, i);
      MiddleMatches(s, text, i);
    }
  }

  // Without escaping, a wildcard as the term would find everything.
  lemma UnescapedWildcardFindsEverything(text: string)
    ensures Like("%" + ("%" + "%"), text) == Yes
    ensures Like(SearchPattern("%"), text) == Yes <==> Contains(text, "%")
  {
    SearchFindsSubstrings("%", text);
    PercentMatchesAnything(text);
    assert text[0..] == text && Matches("%", text[0..]);
    PercentFirst("%", text);
    assert Matches("%" + "%", text[0..]);
    PercentFirst("%" + "%", text);
    assert ("%" + ("%" + "%"))[1..] == "%" + "%" && ("%" + "%")[1..] == "%" && "%"[1..] == [];
    assert !Dangles("%" + "%");
  }

  // ----- The helper -----

  predicate IsTrimmed(s: string) {
    s != [] ==> !IsSpace(s[0]) && !IsSpace(s[|s| - 1])
  }

  function Trim(s: string): (r: string)
    ensures IsTrimmed(r) && |r| <= |s|
  {
    if s == [] then s
    else if IsSpace(s[0]) then Trim(s[1..])
    else if IsSpace(s[|s| - 1]) then Trim(s[..|s| - 1])
    else s
  }

  // Trimming takes white space from both ends, all of it and nothing else.
  lemma {:induction false} TrimExactly(s: string) returns (left: string, right: string)
    ensures s == left + Trim(s) + right
    ensures forall c :: c in left || c in right ==> IsSpace(c)
    decreases |s|
  {
    if s == [] || (!IsSpace(s[0]) && !IsSpace(s[|s| - 1])) {
      left, right := [], [];
    } else if IsSpace(s[0]) {
      left, right := TrimExactly(s[1..]);
      assert s == [s[0]] + s[1..] == [s[0]] + left + Trim(s) + right;
      left := [s[0]] + left;
    } else {
      left, right := TrimExactly(s[..|s| - 1]);
      assert s == s[..|s| - 1] + [s[|s| - 1]] == left + Trim(s) + (right + [s[|s| - 1]]);
      right := right + [s[|s| - 1]];
    }
  }

  // What is searched for is as much of the trimmed term as the cap allows.
  lemma CappedExactly(term: string, maxLength: nat)
    ensures Capped(term, maxLength) <= Trim(term)
    ensures |Capped(term, maxLength)| == Min(maxLength, |Trim(term)|)
  {
  }

  function Capped(term: string, maxLength: nat): string {
    var trimmed := Trim(term);
    if |trimmed| <= maxLength then trimmed else trimmed[..maxLength]
  }

  // A condition on a row: some column matches the parameter named by the key.
  datatype Condition = AnyLike(columns: seq<string>, paramKey: nat)

  type Row = map<string, string>

  class SearchQuery {
    var conditions: seq<Condition>
    var parameters: map<nat, string>

    constructor ()
      ensures conditions == [] && parameters == map[]
    {
      conditions, parameters := [], map[];
    }

    method AndWhere(condition: Condition, paramKey: nat, value: string)
      modifies this
      ensures conditions == old(conditions) + [condition]
      ensures parameters == old(parameters)[paramKey := value]
    {
      conditions := conditions + [condition];
      parameters := parameters[paramKey := value];
    }
  }

  // A row passes a query whose parameters are all bound.
  ghost predicate Passes(conditions: seq<Condition>, parameters: map<nat, string>, row: Row) {
    forall i :: 0 <= i < |conditions| ==>
      && conditions[i].paramKey in parameters
      && exists c :: c in conditions[i].columns && c in row && Like(parameters[conditions[i].paramKey], row[c]) == Yes
  }

  ghost predicate SomeColumnContains(columns: seq<string>, row: Row, s: string) {
    exists c :: c in columns && c in row && Contains(row[c], s)
  }

  // The module with its call counter, which names the parameters.
  class IlikeSearch {
    var callCounter: nat

    constructor ()
      ensures callCounter == 0
    {
      callCounter := 0;
    }

    method ApplyIlikeSearch(qb: SearchQuery, columns: seq<string>, term: string, minLength: nat, maxLength: nat)
        returns (applied: bool)
      modifies this, qb
      ensures var safe := Capped(term, maxLength);
              && (applied <==> |safe| >= minLength)
              && callCounter == old(callCounter) + (if applied then 1 else 0)
              && qb.conditions == (if applied then old(qb.conditions) + [AnyLike(columns, callCounter)] else old(qb.conditions))
              && qb.parameters == (if applied then old(qb.parameters)[callCounter := SearchPattern(safe)] else old(qb.parameters))
    {
      var safe := Capped(term, maxLength);
      if |safe| < minLength {
        return false;
      }
      callCounter := callCounter + 1;
      var paramKey := callCounter;
      var escaped := EscapeLike(safe);
      qb.AndWhere(AnyLike(columns, paramKey), paramKey, "%" + escaped + "%");
      applied := true;
    }
  }

  // The keys in use were all handed out already, so a new key clashes with none of them.
  ghost predicate KeysIssued(conditions: seq<Condition>, parameters: map<nat, string>, counter: nat) {
    && (forall k :: k in parameters ==> k <= counter)
    && (forall i :: 0 <= i < |conditions| ==> conditions[i].paramKey in parameters)
  }

  // Applying one more search narrows the query to the rows with a column containing the term,
  // and leaves what the earlier searches select as it was.
  lemma SearchNarrows(conditions: seq<Condition>, parameters: map<nat, string>, counter: nat, columns: seq<string>,
                      safe: string, row: Row)
    requires KeysIssued(conditions, parameters, counter)
    ensures var conditions', parameters' := conditions + [AnyLike(columns, counter + 1)],
                                            parameters[counter + 1 := SearchPattern(safe)];
            && KeysIssued(conditions', parameters', counter + 1)
            && (Passes(conditions', parameters', row)
                <==> Passes(conditions, parameters, row) && SomeColumnContains(columns, row, safe))
  {
    var conditions' := conditions + [AnyLike(columns, counter + 1)];
    var parameters' := parameters[counter + 1 := SearchPattern(safe)];
    forall c | c in columns && c in row
      ensures Like(SearchPattern(safe), row[c]) == Yes <==> Contains(row[c], safe)
    {
      SearchFindsSubstrings(safe, row[c]);
    }
    assert forall i :: 0 <= i < |conditions| ==>
      conditions'[i] == conditions[i] && parameters'[conditions[i].paramKey] == parameters[conditions[i].paramKey];
    assert conditions'[|conditions|] == AnyLike(columns, counter + 1);
    if Passes(conditions', parameters', row) {
      forall i | 0 <= i < |conditions|
        ensures exists c :: c in conditions[i].columns && c in row && Like(parameters[conditions[i].paramKey], row[c]) == Yes
      {
        assert conditions'[i] == conditions[i];
      }
      var c :| c in conditions'[|conditions|].columns && c in row && Like(SearchPattern(safe), row[c]) == Yes;
      assert Contains(row[c], safe);
    }
  }
}
