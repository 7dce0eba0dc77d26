// The scanner that blanks out comments and string literals, keeping every offset and newline.
module SourceScanner {

  datatype Mode = Code | Quoted(quote: char) | LineComment | BlockComment

  predicate IsQuote(c: char) {
    c == '\'' || c == '"' || c == '`'
  }

  // What a blanked character becomes.
  function Keep(c: char): char {
    if c == '\n' then '\n' else ' '
  }

  function Blank(s: string): (r: string)
    ensures |r| == |s|
  {
    seq(|s|, i requires 0 <= i < |s| => Keep(s[i]))
  }

  // Blanking leaves newlines and spaces, whatever was there.
  lemma NothingIsLeft(s: string, i: nat)
    requires i < |s|
    ensures Blank(s)[i] == if s[i] == '\n' then '\n' else ' '
  {
  }

  predicate StartsWith(s: string, c: char, d: char) {
    |s| >= 2 && s[0] == c && s[1] == d
  }

  // The rest of the output, given the mode, the escape flag and the rest of the input.
  function Scan(mode: Mode, escaped: bool, s: string): string
    decreases |s|
  {
    if s == [] then []
    else
      match mode
      case LineComment =>
        if s[0] == '\n' then ['\n'] + Scan(Code, escaped, s[1..]) else [' '] + Scan(LineComment, escaped, s[1..])
      case BlockComment =>
        if StartsWith(s, '*', '/') then [' ', ' '] + Scan(Code, escaped, s[2..])
        else [Keep(s[0])] + Scan(BlockComment, escaped, s[1..])
      case Quoted(quote) =>
        [Keep(s[0])] + Scan(if !escaped && s[0] == quote then Code else mode, !escaped && s[0] == '\\', s[1..])
      case Code =>
        if StartsWith(s, '/', '/') then [' ', ' '] + Scan(LineComment, false, s[2..])
        else if StartsWith(s, '/', '*') then [' ', ' '] + Scan(BlockComment, false, s[2..])
        else if IsQuote(s[0]) then [' '] + Scan(Quoted(s[0]), false, s[1..])
        else [s[0]] + Scan(Code, false, s[1..])
  }

  function Sanitized(source: string): string {
    Scan(Code, false, source)
  }

  // The six flags stand for one mode.
  ghost predicate FlagsMean(mode: Mode, inSingle: bool, inDouble: bool, inTemplate: bool, inLine: bool, inBlock: bool) {
    && (inSingle <==> mode == Quoted('\'')) && (inDouble <==> mode == Quoted('"'))
    && (inTemplate <==> mode == Quoted('`'))
    && (inLine <==> mode == LineComment) && (inBlock <==> mode == BlockComment)
    && (mode.Quoted? ==> IsQuote(mode.quote))
  }

  // Progress of the loop: what is out, and what the rest will add, make the whole result.
  ghost predicate Accounts(source: string, i: nat, out: string, mode: Mode, escaped: bool) {
    i <= |source| && out + Scan(mode, escaped, source[i..]) == Sanitized(source)
  }

  // One turn of the loop, mode by mode.
  lemma LoopTurn(source: string, i: nat, out: string, mode: Mode, escaped: bool)
    requires i < |source| && Accounts(source, i, out, mode, escaped)
    ensures var c, next := source[i], source[i + 1..];
            match mode
            case LineComment =>
              if c == '\n' then Accounts(source, i + 1, out + ['\n'], Code, escaped)
              else Accounts(source, i + 1, out + [' '], mode, escaped)
            case BlockComment =>
              if c == '*' && next != [] && next[0] == '/' then Accounts(source, i + 2, out + [' ', ' '], Code, escaped)
              else Accounts(source, i + 1, out + [Keep(c)], mode, escaped)
            case Quoted(quote) =>
              Accounts(source, i + 1, out + [Keep(c)], if !escaped && c == quote then Code else mode, !escaped && c == '\\')
            case Code =>
              if c == '/' && next != [] && next[0] == '/' then Accounts(source, i + 2, out + [' ', ' '], LineComment, false)
              else if c == '/' && next != [] && next[0] == '*' then Accounts(source, i + 2, out + [' ', ' '], BlockComment, false)
              else if IsQuote(c) then Accounts(source, i + 1, out + [' '], Quoted(c), false)
              else Accounts(source, i + 1, out + [c], Code, false)
  {
    var rest := source[i..];
    assert rest[0] == source[i] && rest[1..] == source[i + 1..];
    if |rest| >= 2 {
      assert rest[1] == source[i + 1..][0] && rest[2..] == source[i + 2..];
    }
    assert forall a: string, b: string, c: string :: (a + b) + c == a + (b + c);
  }

  method SanitizeForScanning(source: string) returns (out: string)
    ensures out == Sanitized(source)
  {
    out := [];
    var inSingle, inDouble, inTemplate, inLineComment, inBlockComment, escaped := false, false, false, false, false, false;
    ghost var mode := Code;
    var i := 0;
    assert source[0..] == source;
    while i < |source|
      invariant Accounts(source, i, out, mode, escaped)
      invariant FlagsMean(mode, inSingle, inDouble, inTemplate, inLineComment, inBlockComment)
    {
      var c := source[i];
      var next := source[i + 1..];
      LoopTurn(source, i, out, mode, escaped);
      if inLineComment {
        if c == '\n' {
          inLineComment := false;
          mode := Code;
          out := out + ['\n'];
        } else {
          out := out + [' '];
        }
        i := i + 1;
        continue;
      }
      if inBlockComment {
        if c == '*' && next != [] && next[0] == '/' {
          out := out + [' ', ' '];
          i := i + 1;
          inBlockComment := false;
          mode := Code;
        } else {
          out := out + [if c == '\n' then '\n' else ' '];
        }
        i := i + 1;
        continue;
      }
      if inSingle {
        out := out + [if c == '\n' then '\n' else ' '];
        if !escaped && c == '\'' {
          inSingle := false;
          mode := Code;
        }
        escaped := !escaped && c == '\\';
        i := i + 1;
        continue;
      }
      if inDouble {
        out := out + [if c == '\n' then '\n' else ' '];
        if !escaped && c == '"' {
          inDouble := false;
          mode := Code;
        }
        escaped := !escaped && c == '\\';
        i := i + 1;
        continue;
      }
      if inTemplate {
        out := out + [if c == '\n' then '\n' else ' '];
        if !escaped && c == '`' {
          inTemplate := false;
          mode := Code;
        }
        escaped := !escaped && c == '\\';
        i := i + 1;
        continue;
      }
      escaped := false;
      if c == '/' && next != [] && next[0] == '/' {
        out := out + [' ', ' '];
        i := i + 1;
        inLineComment := true;
        mode := LineComment;
      } else if c == '/' && next != [] && next[0] == '*' {
        out := out + [' ', ' '];
        i := i + 1;
        inBlockComment := true;
        mode := BlockComment;
      } else if c == '\'' {
        out := out + [' '];
        inSingle := true;
        mode := Quoted('\'');
      } else if c == '"' {
        out := out + [' '];
        inDouble := true;
        mode := Quoted('"');
      } else if c == '`' {
        out := out + [' '];
        inTemplate := true;
        mode := Quoted('`');
      } else {
        out := out + [c];
      }
      i := i + 1;
    }
  }

  // ----- Shape -----

  // Nothing left that could open a literal or a comment.
  ghost predicate Clean(s: string) {
    && (forall i :: 0 <= i < |s| ==> !IsQuote(s[i]))
    && (forall i :: 0 <= i < |s| - 1 ==> s[i] == '/' ==> s[i + 1] != '/' && s[i + 1] != '*')
  }

  // Same length, newlines in the same places, every other character kept or made a space.
  ghost predicate Overlays(r: string, s: string) {
    && |r| == |s|
    && forall i :: 0 <= i < |s| ==> (r[i] == s[i] || r[i] == ' ') && (r[i] == '\n' <==> s[i] == '\n')
  }

  ghost predicate Shaped(r: string, s: string) {
    Overlays(r, s) && Clean(r)
  }

  // A blanked character in front keeps the shape.
  lemma BlankedInFront(c: char, r: string, s: string)
    requires Shaped(r, s)
    ensures Shaped([Keep(c)] + r, [c] + s)
  {
    var r', s' := [Keep(c)] + r, [c] + s;
    assert forall i :: 1 <= i < |r'| ==> r'[i] == r[i - 1];
  }

  lemma PairInFront(s: string, r: string)
    requires |s| >= 2 && s[0] != '\n' && s[1] != '\n' && Shaped(r, s[2..])
    ensures Shaped([' ', ' '] + r, s)
  {
    var r' := [' ', ' '] + r;
    assert forall i :: 2 <= i < |r'| ==> r'[i] == r[i - 2] && s[i] == s[2..][i - 2];
  }

  // So does a character of code that is no quote and begins no comment.
  lemma CodeInFront(c: char, r: string, s: string)
    requires Shaped(r, s) && !IsQuote(c) && !StartsWith([c] + s, '/', '/') && !StartsWith([c] + s, '/', '*')
    ensures Shaped([c] + r, [c] + s)
  {
    var r', s' := [c] + r, [c] + s;
    assert forall i :: 1 <= i < |r'| ==> r'[i] == r[i - 1];
  }

  lemma {:induction false} ScanShape(mode: Mode, escaped: bool, s: string)
    ensures Shaped(Scan(mode, escaped, s), s)
    decreases |s|
  {
    if s == [] {
      return;
    }
    var c, rest := s[0], s[1..];
    assert s == [c] + rest;
    match mode
    case LineComment =>
      var after := if c == '\n' then Code else LineComment;
      ScanShape(after, escaped, rest);
      BlankedInFront(c, Scan(after, escaped, rest), rest);
    case BlockComment =>
      if StartsWith(s, '*', '/') {
        ScanShape(Code, escaped, s[2..]);
        PairInFront(s, Scan(Code, escaped, s[2..]));
      } else {
        ScanShape(BlockComment, escaped, rest);
        BlankedInFront(c, Scan(BlockComment, escaped, rest), rest);
      }
    case Quoted(quote) =>
      var after, flag := if !escaped && c == quote then Code else mode, !escaped && c == '\\';
      ScanShape(after, flag, rest);
      BlankedInFront(c, Scan(after, flag, rest), rest);
    case Code =>
      if StartsWith(s, '/', '/') || StartsWith(s, '/', '*') {
        var after := if s[1] == '/' then LineComment else BlockComment;
        ScanShape(after, false, s[2..]);
        PairInFront(s, Scan(after, false, s[2..]));
      } else if IsQuote(c) {
        ScanShape(Quoted(c), false, rest);
        BlankedInFront(c, Scan(Quoted(c), false, rest), rest);
      } else {
        ScanShape(Code, false, rest);
        CodeInFront(c, Scan(Code, false, rest), rest);
      }
  }

  lemma SanitizedShape(source: string)
    ensures Overlays(Sanitized(source), source) && Clean(Sanitized(source))
  {
    ScanShape(Code, false, source);
  }

  lemma {:induction false} CleanIsFixed(s: string)
    requires Clean(s)
    ensures Sanitized(s) == s
  {
    if s != [] {
      CleanIsFixed(s[1..]);
    }
  }

  lemma SanitizingIsIdempotent(source: string)
    ensures Sanitized(Sanitized(source)) == Sanitized(source)
  {
    SanitizedShape(source);
    CleanIsFixed(Sanitized(source));
  }

  // ----- Meaning: a source as a sequence of tokens -----

  datatype Token = Plain(c: char) | Literal(quote: char, body: string) | Line(body: string) | Block(body: string)

  function Text(t: Token): string {
    match t
    case Plain(c) => [c]
    case Literal(quote, body) => [quote] + body + [quote]
    case Line(body) => ['/', '/'] + body
    case Block(body) => ['/', '*'] + body + ['*', '/']
  }

  function Masked(t: Token): string {
    if t.Plain? then Text(t) else Blank(Text(t))
  }

  function Render(ts: seq<Token>, tail: string): string {
    if ts == [] then tail else Text(ts[0]) + Render(ts[1..], tail)
  }

  function Mask(ts: seq<Token>, tail: string): string {
    if ts == [] then Blank(tail) else Masked(ts[0]) + Mask(ts[1..], tail)
  }

  // The quote does not occur unescaped, and the text does not end in the middle of an escape.
  predicate Unclosed(quote: char, body: string, escaped: bool) {
    body == [] || ((escaped || body[0] != quote) && Unclosed(quote, body[1..], !escaped && body[0] == '\\'))
  }

  predicate EndsEscaped(body: string, escaped: bool) {
    if body == [] then escaped else EndsEscaped(body[1..], !escaped && body[0] == '\\')
  }

  predicate NoBlockEnd(s: string) {
    forall i :: 0 <= i < |s| - 1 ==> !(s[i] == '*' && s[i + 1] == '/')
  }

  // A token as it can stand before `rest`.
  ghost predicate TokenOk(t: Token, rest: string) {
    match t
    case Plain(c) => !IsQuote(c) && (c == '/' && rest != [] ==> rest[0] != '/' && rest[0] != '*')
    case Literal(quote, body) => IsQuote(quote) && Unclosed(quote, body, false) && !EndsEscaped(body, false)
    case Line(body) => '\n' !in body && (rest != [] ==> rest[0] == '\n')
    case Block(body) => NoBlockEnd(body + ['*'])
  }

  // A literal or block comment that is never closed, or nothing.
  ghost predicate TailOk(tail: string) {
    || tail == []
    || (IsQuote(tail[0]) && Unclosed(tail[0], tail[1..], false))
    || (StartsWith(tail, '/', '*') && NoBlockEnd(tail[2..]))
  }

  ghost predicate TokensOk(ts: seq<Token>, tail: string) {
    if ts == [] then TailOk(tail) else TokenOk(ts[0], Render(ts[1..], tail)) && TokensOk(ts[1..], tail)
  }

  // One character inside a literal.
  lemma ScanQuoted(quote: char, escaped: bool, c: char, rest: string)
    requires escaped || c != quote
    ensures Scan(Quoted(quote), escaped, [c] + rest) == [Keep(c)] + Scan(Quoted(quote), !escaped && c == '\\', rest)
  {
    assert ([c] + rest)[1..] == rest;
  }

  lemma ScanClosing(quote: char, rest: string)
    requires IsQuote(quote)
    ensures Scan(Quoted(quote), false, [quote] + rest) == [Keep(quote)] + Scan(Code, false, rest)
  {
    assert ([quote] + rest)[1..] == rest;
  }

  lemma Associative(a: string, b: string, c: string)
    ensures a + b + c == a + (b + c)
  {
  }

  lemma BlankInFront(c: char, s: string)
    ensures Blank([c] + s) == [Keep(c)] + Blank(s)
  {
  }

  // If the rest of a literal is blanked as it should be, so is the literal.
  lemma QuotedInFront(quote: char, c: char, tail: string, escaped: bool, rest: string)
    requires escaped || c != quote
    requires Scan(Quoted(quote), !escaped && c == '\\', tail + rest) == Blank(tail) + Scan(Code, false, rest)
    ensures Scan(Quoted(quote), escaped, [c] + tail + rest) == Blank([c] + tail) + Scan(Code, false, rest)
  {
    Associative([c], tail, rest);
    ScanQuoted(quote, escaped, c, tail + rest);
    BlankInFront(c, tail);
    Associative([Keep(c)], Blank(tail), Scan(Code, false, rest));
  }

  lemma {:induction false} ScanLiteral(quote: char, body: string, escaped: bool, rest: string)
    requires Unclosed(quote, body, escaped) && !EndsEscaped(body, escaped) && IsQuote(quote)
    ensures Scan(Quoted(quote), escaped, body + [quote] + rest) == Blank(body + [quote]) + Scan(Code, false, rest)
  {
    if body == [] {
      ScanClosing(quote, rest);
      assert body + [quote] + rest == [quote] + rest && body + [quote] == [quote];
    } else {
      ScanLiteral(quote, body[1..], !escaped && body[0] == '\\', rest);
      QuotedInFront(quote, body[0], body[1..] + [quote], escaped, rest);
      assert body + [quote] == [body[0]] + (body[1..] + [quote]);
    }
  }

  lemma {:induction false} ScanUnclosed(quote: char, body: string, escaped: bool)
    requires Unclosed(quote, body, escaped)
    ensures Scan(Quoted(quote), escaped, body) == Blank(body)
  {
    if body != [] {
      ScanUnclosed(quote, body[1..], !escaped && body[0] == '\\');
    }
  }

  lemma {:induction false} ScanLine(body: string, rest: string)
    requires '\n' !in body && (rest != [] ==> rest[0] == '\n')
    ensures Scan(LineComment, false, body + rest) == Blank(body) + Scan(Code, false, rest)
  {
    if body == [] {
      assert body + rest == rest;
    } else {
      ScanLine(body[1..], rest);
      assert (body + rest)[1..] == body[1..] + rest;
      assert Blank(body) == [Keep(body[0])] + Blank(body[1..]);
    }
  }

  // One character inside a block comment.
  lemma ScanInBlock(c: char, rest: string)
    requires rest != [] && !(c == '*' && rest[0] == '/')
    ensures Scan(BlockComment, false, [c] + rest) == [Keep(c)] + Scan(BlockComment, false, rest)
  {
    assert ([c] + rest)[1..] == rest && ([c] + rest)[1] == rest[0];
  }

  // If the rest of a block comment is blanked as it should be, so is the comment.
  lemma BlockInFront(c: char, tail: string, rest: string)
    requires tail != [] && !(c == '*' && tail[0] == '/')
    requires Scan(BlockComment, false, tail + rest) == Blank(tail) + Scan(Code, false, rest)
    ensures Scan(BlockComment, false, [c] + tail + rest) == Blank([c] + tail) + Scan(Code, false, rest)
  {
    Associative([c], tail, rest);
    ScanInBlock(c, tail + rest);
    BlankInFront(c, tail);
    Associative([Keep(c)], Blank(tail), Scan(Code, false, rest));
  }

  lemma {:induction false} ScanBlock(body: string, rest: string)
    requires NoBlockEnd(body + ['*'])
    ensures Scan(BlockComment, false, body + ['*', '/'] + rest) == Blank(body + ['*', '/']) + Scan(Code, false, rest)
  {
    if body == [] {
      assert body + ['*', '/'] + rest == ['*', '/'] + rest && body + ['*', '/'] == ['*', '/'];
      assert (['*', '/'] + rest)[2..] == rest;
    } else {
      var tail := body[1..] + ['*', '/'];
      assert body[1..] + ['*'] == (body + ['*'])[1..];
      assert (body + ['*'])[0] == body[0] && (body + ['*'])[1] == tail[0];
      ScanBlock(body[1..], rest);
      BlockInFront(body[0], tail, rest);
      assert body + ['*', '/'] == [body[0]] + tail;
    }
  }

  lemma {:induction false} ScanOpenBlock(body: string)
    requires NoBlockEnd(body)
    ensures Scan(BlockComment, false, body) == Blank(body)
  {
    if body != [] {
      ScanOpenBlock(body[1..]);
    }
  }

  lemma ScanToken(t: Token, rest: string)
    requires TokenOk(t, rest)
    ensures Scan(Code, false, Text(t) + rest) == Masked(t) + Scan(Code, false, rest)
  {
    match t
    case Plain(c) =>
      assert ([c] + rest)[1..] == rest;
    case Literal(quote, body) => ScanLiteralToken(quote, body, rest);
    case Line(body) => ScanLineToken(body, rest);
    case Block(body) => ScanBlockToken(body, rest);
  }

  lemma ScanLiteralToken(quote: char, body: string, rest: string)
    requires TokenOk(Literal(quote, body), rest)
    ensures Scan(Code, false, Text(Literal(quote, body)) + rest) == Blank(Text(Literal(quote, body))) + Scan(Code, false, rest)
  {
    var t := Text(Literal(quote, body));
    assert t + rest == [quote] + (body + [quote] + rest);
    ScanLiteral(quote, body, false, rest);
    assert Blank(t) == [' '] + Blank(body + [quote]);
  }

  lemma ScanLineToken(body: string, rest: string)
    requires TokenOk(Line(body), rest)
    ensures Scan(Code, false, Text(Line(body)) + rest) == Blank(Text(Line(body))) + Scan(Code, false, rest)
  {
    var t := Text(Line(body));
    assert t + rest == ['/', '/'] + (body + rest);
    ScanLine(body, rest);
    assert Blank(t) == [' ', ' '] + Blank(body);
  }

  lemma ScanBlockToken(body: string, rest: string)
    requires TokenOk(Block(body), rest)
    ensures Scan(Code, false, Text(Block(body)) + rest) == Blank(Text(Block(body))) + Scan(Code, false, rest)
  {
    var t := Text(Block(body));
    assert t + rest == ['/', '*'] + (body + ['*', '/'] + rest);
    ScanBlock(body, rest);
    assert Blank(t) == [' ', ' '] + Blank(body + ['*', '/']);
  }

  // Scanning a source made of tokens blanks exactly its literals and comments.
  lemma {:induction false} SanitizedMasksTokens(ts: seq<Token>, tail: string)
    requires TokensOk(ts, tail)
    ensures Sanitized(Render(ts, tail)) == Mask(ts, tail)
  {
    if ts == [] {
      if tail != [] && IsQuote(tail[0]) {
        ScanUnclosed(tail[0], tail[1..], false);
        assert Blank(tail) == [' '] + Blank(tail[1..]);
      } else if tail != [] {
        ScanOpenBlock(tail[2..]);
        assert Blank(tail) == [' ', ' '] + Blank(tail[2..]);
      }
    } else {
      SanitizedMasksTokens(ts[1..], tail);
      ScanToken(ts[0], Render(ts[1..], tail));
    }
  }

  // Every source is made of tokens, so the theorem above speaks about every source.
  lemma {:induction false} EverySourceHasTokens(source: string) returns (ts: seq<Token>, tail: string)
    ensures TokensOk(ts, tail) && Render(ts, tail) == source
    decreases |source|
  {
    if TailOk(source) {
      return [], source;
    }
    var t, rest := FirstToken(source);
    ts, tail := EverySourceHasTokens(rest);
    ts := [t] + ts;
    assert ts[1..] == ts[1..];
  }

  lemma FirstToken(s: string) returns (t: Token, rest: string)
    requires !TailOk(s)
    ensures TokenOk(t, rest) && s == Text(t) + rest && |rest| < |s|
  {
    if StartsWith(s, '/', '/') {
      var n := LineEnd(s[2..]);
      var body := s[2..][..n];
      t, rest := Line(body), s[2..][n..];
      assert s == ['/', '/'] + s[2..] == ['/', '/'] + (body + rest) == ['/', '/'] + body + rest;
    } else if StartsWith(s, '/', '*') {
      t, rest := FirstBlock(s);
    } else if IsQuote(s[0]) {
      t, rest := FirstLiteral(s);
    } else {
      t, rest := Plain(s[0]), s[1..];
    }
  }

  lemma FirstBlock(s: string) returns (t: Token, rest: string)
    requires StartsWith(s, '/', '*') && !NoBlockEnd(s[2..])
    ensures TokenOk(t, rest) && s == Text(t) + rest && |rest| < |s|
  {
    var inner := s[2..];
    var n := BlockEnd(inner);
    var body := inner[..n];
    t, rest := Block(body), inner[n + 2..];
    assert inner == body + ['*', '/'] + rest;
    assert s == ['/', '*'] + inner;
  }

  lemma FirstLiteral(s: string) returns (t: Token, rest: string)
    requires s != [] && IsQuote(s[0]) && !Unclosed(s[0], s[1..], false)
    ensures TokenOk(t, rest) && s == Text(t) + rest && |rest| < |s|
  {
    var inner := s[1..];
    var n := LiteralEnd(s[0], inner, false);
    var body := inner[..n];
    t, rest := Literal(s[0], body), inner[n + 1..];
    assert inner == body + [s[0]] + rest;
    assert s == [s[0]] + inner;
  }

  lemma {:induction false} LineEnd(s: string) returns (n: nat)
    ensures n <= |s| && '\n' !in s[..n] && (n < |s| ==> s[n] == '\n')
  {
    if s == [] || s[0] == '\n' {
      n := 0;
    } else {
      n := LineEnd(s[1..]);
      assert s[..n + 1] == [s[0]] + s[1..][..n];
      n := n + 1;
    }
  }

  lemma {:induction false} BlockEnd(s: string) returns (n: nat)
    requires !NoBlockEnd(s)
    ensures n + 2 <= |s| && s[n] == '*' && s[n + 1] == '/' && NoBlockEnd(s[..n] + ['*'])
  {
    if s[0] == '*' && s[1] == '/' {
      n := 0;
    } else {
      var i :| 0 <= i < |s| - 1 && s[i] == '*' && s[i + 1] == '/';
      assert s[1..][i - 1] == '*' && s[1..][i] == '/';
      var m := BlockEnd(s[1..]);
      n := m + 1;
      var shorter, longer := s[1..][..m] + ['*'], s[..n] + ['*'];
      assert longer[0] == s[0] && longer[1] == s[1];
      assert forall j :: 1 <= j < |longer| ==> longer[j] == shorter[j - 1];
    }
  }

  lemma {:induction false} LiteralEnd(quote: char, s: string, escaped: bool) returns (n: nat)
    requires !Unclosed(quote, s, escaped) && IsQuote(quote)
    ensures n < |s| && s[n] == quote && Unclosed(quote, s[..n], escaped) && !EndsEscaped(s[..n], escaped)
  {
    if !escaped && s[0] == quote {
      n := 0;
    } else {
      n := LiteralEnd(quote, s[1..], !escaped && s[0] == '\\');
      assert s[..n + 1][1..] == s[1..][..n];
      n := n + 1;
    }
  }
}
