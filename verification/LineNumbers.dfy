// Line numbers of offsets: a table of line starts with a binary search, and a linear count.
module LineNumbers {
  import opened Prelude

  const MAX_SAFE_INTEGER := 9007199254740991

  // Newlines among the first `n` characters.
  ghost function Newlines(text: string, n: nat): nat
    requires n <= |text|
  {
    if n == 0 then 0 else Newlines(text, n - 1) + if text[n - 1] == '\n' then 1 else 0
  }

  lemma {:induction false} NewlinesMonotone(text: string, m: nat, n: nat)
    requires m <= n <= |text|
    ensures Newlines(text, m) <= Newlines(text, n)
  {
    if m < n {
      NewlinesMonotone(text, m, n - 1);
    }
  }

  // They are the newlines of that part of the text.
  lemma {:induction false} NewlinesAreCounted(text: string, n: nat)
    requires n <= |text|
    ensures Newlines(text, n) == multiset(text[..n])['\n']
  {
    if n > 0 {
      NewlinesAreCounted(text, n - 1);
      assert text[..n] == text[..n - 1] + [text[n - 1]];
    }
  }

  // The line of an offset, counted from 1; offsets past the end are on the last line.
  ghost function LineOf(text: string, offset: nat): nat {
    1 + Newlines(text, Min(offset, |text|))
  }

  // `starts[k]` is where line k + 1 starts, for every line of the text.
  ghost predicate IsLineStarts(text: string, starts: seq<nat>) {
    && |starts| == 1 + Newlines(text, |text|) && starts[0] == 0
    && (forall k :: 0 <= k < |starts| ==> starts[k] <= |text| && Newlines(text, starts[k]) == k)
    && (forall k :: 0 < k < |starts| ==> starts[k] > 0 && text[starts[k] - 1] == '\n')
  }

  method BuildLineStarts(text: string) returns (starts: seq<nat>)
    ensures IsLineStarts(text, starts)
  {
    starts := [0];
    for i := 0 to |text|
      invariant |starts| == 1 + Newlines(text, i) && starts[0] == 0
      invariant forall k :: 0 <= k < |starts| ==> starts[k] <= i && Newlines(text, starts[k]) == k
      invariant forall k :: 0 < k < |starts| ==> starts[k] > 0 && text[starts[k] - 1] == '\n'
    {
      if text[i] == '\n' {
        starts := starts + [i + 1];
      }
    }
  }

  // An offset is on line k + 1 exactly between that line's start and the next one's.
  lemma LineBetweenStarts(text: string, starts: seq<nat>, k: nat, offset: nat)
    requires IsLineStarts(text, starts) && k < |starts|
    ensures starts[k] <= offset <==> k + 1 <= LineOf(text, offset)
  {
    var n := Min(offset, |text|);
    if starts[k] <= offset {
      NewlinesMonotone(text, starts[k], n);
    } else {
      NewlinesMonotone(text, n, starts[k] - 1);
    }
  }

  // Total: before the text the search runs dry and the number of lines comes back.
  method GetLineNumber(ghost text: string, lineStarts: seq<nat>, offset: int) returns (line: nat)
    requires IsLineStarts(text, lineStarts)
    ensures line == if offset >= 0 then LineOf(text, offset) else |lineStarts|
  {
    var low, high := 0, |lineStarts| - 1;
    ghost var answer := if offset >= 0 then LineOf(text, offset) else |lineStarts|;
    NewlinesMonotone(text, Min(Max(offset, 0), |text|), |text|);
    while low <= high
      invariant 0 <= low <= |lineStarts| && -1 <= high < |lineStarts|
      invariant offset >= 0 ==> low + 1 <= answer <= high + 1 || (low == |lineStarts| == answer)
      decreases high - low
    {
      var mid := (low + high) / 2;
      var lineStart := lineStarts[mid];
      var nextLineStart := if mid + 1 < |lineStarts| then lineStarts[mid + 1] else MAX_SAFE_INTEGER;
      if offset >= 0 {
        LineBetweenStarts(text, lineStarts, mid, offset);
        if mid + 1 < |lineStarts| {
          LineBetweenStarts(text, lineStarts, mid + 1, offset);
        }
      }
      if offset >= lineStart && offset < nextLineStart {
        return mid + 1;
      }
      if offset < lineStart {
        high := mid - 1;
      } else {
        low := mid + 1;
      }
    }
    line := |lineStarts|;
  }

  // The linear count of the sibling script.
  method GetLineNumberForIndex(text: string, index: int) returns (line: nat)
    ensures line == if index >= 0 then LineOf(text, index) else 1
  {
    line := 1;
    var i := 0;
    while i < index
      invariant 0 <= i && (index >= 0 ==> i <= index) && (index < 0 ==> i == 0)
      invariant line == LineOf(text, i)
    {
      if i < |text| && text[i] == '\n' {
        line := line + 1;
      }
      i := i + 1;
    }
  }

  // The binary search is the linear count at every offset from the text's start on, and
  // before it only in a text of one line.
  method SearchRefinesCount(text: string, offset: int) returns (searched: nat, counted: nat)
    ensures searched == if offset >= 0 then LineOf(text, offset) else 1 + Newlines(text, |text|)
    ensures counted == if offset >= 0 then LineOf(text, offset) else 1
    ensures searched == counted <==> offset >= 0 || '\n' !in text
  {
    var starts := BuildLineStarts(text);
    searched := GetLineNumber(text, starts, offset);
    counted := GetLineNumberForIndex(text, offset);
    NewlinesFree(text, |text|);
  }

  lemma {:induction false} NewlinesFree(text: string, n: nat)
    requires n <= |text|
    ensures Newlines(text, n) == 0 <==> '\n' !in text[..n]
    ensures text[..|text|] == text
  {
    if n > 0 {
      NewlinesFree(text, n - 1);
      assert text[..n] == text[..n - 1] + [text[n - 1]];
    }
  }
}
