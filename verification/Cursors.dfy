// Plain and signed pagination cursors. Text is bytes; dates are milliseconds.
module Cursors {
  import opened Prelude
  import opened Base64

  const BAR: byte := 124

  // ----- Splitting at bars -----

  predicate BarFree(s: Text) {
    BAR !in s
  }

  function FirstBar(s: Text): (i: nat)
    ensures i <= |s| && BarFree(s[..i])
    ensures i < |s| ==> s[i] == BAR
  {
    if s == [] || s[0] == BAR then 0 else
      assert s[..1 + FirstBar(s[1..])] == [s[0]] + s[1..][..FirstBar(s[1..])];
      1 + FirstBar(s[1..])
  }

  // lastIndexOf
  function LastBar(s: Text): (i: Option<nat>)
    ensures i.Some? ==> i.value < |s|
  {
    if s == [] then None else if s[|s| - 1] == BAR then Some(|s| - 1) else LastBar(s[..|s| - 1])
  }

  lemma {:induction false} LastBarIsLast(s: Text)
    ensures LastBar(s).None? <==> BarFree(s)
    ensures LastBar(s).Some? ==> s[LastBar(s).value] == BAR && forall j :: LastBar(s).value < j < |s| ==> s[j] != BAR
  {
    if s != [] && s[|s| - 1] != BAR {
      LastBarIsLast(s[..|s| - 1]);
      assert s == s[..|s| - 1] + [s[|s| - 1]];
    }
  }

  // The first two parts of a split at bars; the second is missing if there is no bar.
  function FirstTwo(s: Text): (Text, Option<Text>) {
    var i := FirstBar(s);
    if i == |s| then (s, None) else
      var rest := s[i + 1..];
      (s[..i], Some(rest[..FirstBar(rest)]))
  }

  lemma FirstBarIs(s: Text, i: nat)
    requires i < |s| && s[i] == BAR && BarFree(s[..i])
    ensures FirstBar(s) == i
  {
    assert forall j :: 0 <= j < i ==> s[j] in s[..i];
    assert forall j :: 0 <= j < FirstBar(s) ==> s[j] in s[..FirstBar(s)];
  }

  lemma FirstTwoOfJoined(a: Text, b: Text)
    requires BarFree(a)
    ensures FirstTwo(a + [BAR] + b) == (a, Some(b[..FirstBar(b)]))
  {
    var s := a + [BAR] + b;
    assert s[..|a|] == a && s[|a|] == BAR && s[|a| + 1..] == b;
    FirstBarIs(s, |a|);
  }

  lemma CutsNothingExactly(id: Text)
    ensures id[..FirstBar(id)] == id <==> BarFree(id)
  {
    assert FirstBar(id) == |id| ==> id[..FirstBar(id)] == id;
    assert id[..FirstBar(id)] == id ==> FirstBar(id) == |id|;
  }

  predicate Blank(s: Text) {
    forall i :: 0 <= i < |s| ==> 9 <= s[i] <= 13 || s[i] == 32
  }

  // ----- Dates, as the runtime prints and parses them -----

  // The runtime's dates: a hundred million days of milliseconds on either side of 1970.
  const MAX_DATE := 8640000000000000

  type Date = d: int | -MAX_DATE <= d <= MAX_DATE

  // toISOString and the Date constructor, with an absent result for an invalid date.
  datatype DateCodec = DateCodec(print_: Date -> Text, parse: Text -> Option<Date>)

  // What is relied on: a printed date is not empty, has no bar, and parses back.
  ghost predicate Lossless(codec: DateCodec) {
    forall d: Date :: codec.print_(d) != [] && BarFree(codec.print_(d)) && codec.parse(codec.print_(d)) == Some(d)
  }

  // There is such a codec: a sign, and a one for each millisecond.
  lemma LosslessCodec() returns (codec: DateCodec)
    ensures Lossless(codec)
  {
    var print_ := (d: Date) => if d >= 0 then [43] + seq(d, _ => 49) else [45] + seq(-d, _ => 49);
    var parse := (t: Text) =>
      if t == [] || |t| > MAX_DATE + 1 then None else if t[0] == 43 then Some((|t| - 1) as Date) else Some((1 - |t|) as Date);
    codec := DateCodec(print_, parse);
    forall d: Date
      ensures print_(d) != [] && BarFree(print_(d)) && parse(print_(d)) == Some(d)
    {
    }
  }

  // ----- Plain cursors -----

  datatype CursorError = InvalidFormat | InvalidDate | InvalidId

  datatype CursorData = CursorData(date: Date, id: Text)

  function EncodeCursor(codec: DateCodec, date: Date, id: Text): string {
    Encode(codec.print_(date) + [BAR] + id, Standard)
  }

  function DecodeCursor(codec: DateCodec, cursor: string): Result<CursorData, CursorError> {
    var (dateStr, id) := FirstTwo(Decode(cursor));
    if dateStr == [] || id.None? || id.value == [] then Err(InvalidFormat)
    else
      var date := codec.parse(dateStr);
      if date.None? then Err(InvalidDate)
      else if Blank(id.value) then Err(InvalidId)
      else Ok(CursorData(date.value, id.value))
  }

  // The ids that survive a cursor.
  predicate Portable(id: Text) {
    BarFree(id) && !Blank(id)
  }

  lemma CursorRoundTripExactly(codec: DateCodec, date: Date, id: Text)
    requires Lossless(codec)
    ensures DecodeCursor(codec, EncodeCursor(codec, date, id)) == Ok(CursorData(date, id)) <==> Portable(id)
    ensures Decode(EncodeCursor(codec, date, id)) == codec.print_(date) + [124] + id
    ensures Portable(id) <==> 124 !in id && exists c :: c in id && c !in {9, 10, 11, 12, 13, 32}
  {
    DecodeInvertsEncode(codec.print_(date) + [BAR] + id, Standard);
    FirstTwoOfJoined(codec.print_(date), id);
    CutsNothingExactly(id);
    BlankExactly(id);
  }

  // How a cursor is refused: without a bar, a date or an id; with a date that does not parse;
  // with a blank id. What follows a second bar is not looked at.
  lemma RefusedExactly(codec: DateCodec, cursor: string, date: Text, id: Text, more: Text)
    requires BarFree(date) && BarFree(id)
    ensures Decode(cursor) == date ==> DecodeCursor(codec, cursor) == Err(InvalidFormat)
    ensures Decode(cursor) == date + [BAR] + (id + more) && (more == [] || more[0] == BAR) ==>
              && (DecodeCursor(codec, cursor) == Err(InvalidFormat) <==> date == [] || id == [])
              && (DecodeCursor(codec, cursor) == Err(InvalidDate) <==> date != [] && id != [] && codec.parse(date).None?)
              && (DecodeCursor(codec, cursor) == Err(InvalidId) <==>
                    date != [] && id != [] && codec.parse(date).Some? && forall c :: c in id ==> c in {9, 10, 11, 12, 13, 32})
  {
    CutsNothingExactly(date);
    if more == [] || more[0] == BAR {
      FirstTwoOfJoined(date, id + more);
      IdComesFirst(id, more);
      BlankExactly(id);
    }
  }

  lemma BlankExactly(s: Text)
    ensures Blank(s) <==> forall c :: c in s ==> c in {9, 10, 11, 12, 13, 32}
  {
    assert forall i :: 0 <= i < |s| ==> s[i] in s;
  }

  lemma IdComesFirst(id: Text, more: Text)
    requires BarFree(id) && (more == [] || more[0] == BAR)
    ensures (id + more)[..FirstBar(id + more)] == id
  {
    var s := id + more;
    assert s[..|id|] == id;
    if more == [] {
      assert s == id;
      CutsNothingExactly(id);
    } else {
      FirstBarIs(s, |id|);
    }
  }

  // ----- Signed cursors -----

  // What is relied on of the HMAC: its hexadecimal digits have no bar among them.
  ghost predicate IsBarFree(hmac: Text -> Text) {
    forall d :: BarFree(hmac(d))
  }

  // There is such a digest.
  lemma BarFreeDigest() returns (hmac: Text -> Text)
    ensures IsBarFree(hmac) && exists d, e :: hmac(d) != hmac(e)
  {
    hmac := (d: Text) => if d == [] then [48] else [49];
    assert hmac([]) != hmac([BAR]);
  }

  function SignedPayload(hmac: Text -> Text, data: Text): Text {
    data + [BAR] + hmac(data)
  }

  function EncodeSigned(hmac: Text -> Text, data: Text): string {
    Encode(SignedPayload(hmac, data), Url)
  }

  function DecodeSigned(hmac: Text -> Text, cursor: string): Option<Text> {
    var payload := Decode(cursor);
    var lastPipe := LastBar(payload);
    if lastPipe.None? then None
    else
      var data := payload[..lastPipe.value];
      if payload[lastPipe.value + 1..] == hmac(data) then Some(data) else None
  }

  // Whatever the cursor: it decodes to d exactly when its payload is d, a bar and d's digest.
  lemma SignedDecodesExactly(hmac: Text -> Text, cursor: string, data: Text)
    requires IsBarFree(hmac)
    ensures DecodeSigned(hmac, cursor) == Some(data) <==> Decode(cursor) == data + [124] + hmac(data)
  {
    var payload := Decode(cursor);
    var lastPipe := LastBar(payload);
    LastBarIsLast(payload);
    if payload == SignedPayload(hmac, data) {
      assert payload[|data|] == BAR;
      LastBarIs(payload, |data|);
      assert payload[..|data|] == data;
    }
    if DecodeSigned(hmac, cursor) == Some(data) {
      assert payload == payload[..lastPipe.value] + [BAR] + payload[lastPipe.value + 1..];
    }
  }

  lemma LastBarIs(s: Text, i: nat)
    requires i < |s| && s[i] == BAR && BarFree(s[i + 1..])
    ensures LastBar(s) == Some(i)
  {
    LastBarIsLast(s);
    assert s[i] in s;
    assert forall j :: i < j < |s| ==> s[j] in s[i + 1..];
  }

  lemma SignedRoundTrip(hmac: Text -> Text, data: Text)
    requires IsBarFree(hmac)
    ensures DecodeSigned(hmac, EncodeSigned(hmac, data)) == Some(data)
  {
    DecodeInvertsEncode(SignedPayload(hmac, data), Url);
    SignedDecodesExactly(hmac, EncodeSigned(hmac, data), data);
  }

  function CreateUserCursor(codec: DateCodec, hmac: Text -> Text, date: Date, id: Text): string {
    EncodeSigned(hmac, codec.print_(date) + [BAR] + id)
  }

  function ParseUserCursor(codec: DateCodec, hmac: Text -> Text, cursor: string): Option<CursorData> {
    var decoded := DecodeSigned(hmac, cursor);
    if decoded.None? || decoded.value == [] then None
    else
      var (dateStr, id) := FirstTwo(decoded.value);
      if dateStr == [] || id.None? || id.value == [] then None
      else
        var date := codec.parse(dateStr);
        if date.None? then None else Some(CursorData(date.value, id.value))
  }

  // Signed cursors carry blank ids, which plain cursors refuse.
  lemma UserCursorRoundTripExactly(codec: DateCodec, hmac: Text -> Text, date: Date, id: Text)
    requires Lossless(codec) && IsBarFree(hmac)
    ensures ParseUserCursor(codec, hmac, CreateUserCursor(codec, hmac, date, id)) == Some(CursorData(date, id))
       <==> 124 !in id && id != []
  {
    SignedRoundTrip(hmac, codec.print_(date) + [BAR] + id);
    FirstTwoOfJoined(codec.print_(date), id);
    CutsNothingExactly(id);
  }
}
