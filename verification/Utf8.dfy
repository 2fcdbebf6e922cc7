/** UTF-8, and decoding it chunk by chunk the way `String::from_utf8_lossy` does. */
module Utf8 {
  import opened Text

  newtype byte = x: int | 0 <= x < 256

  const REPLACEMENT := '\U{FFFD}'

  predicate Continuation(b: byte) { 0x80 <= b < 0xC0 }

  function Encode(c: char): (bs: seq<byte>)
    ensures 1 <= |bs| <= 4 && !Continuation(bs[0])
    ensures forall i :: 1 <= i < |bs| ==> Continuation(bs[i])
  {
    var n := c as int;
    var n1 := n / 64;
    var n2 := n1 / 64;
    var n3 := n2 / 64;
    if n < 0x80 then [n as byte]
    else if n < 0x800 then [(0xC0 + n1) as byte, (0x80 + n % 64) as byte]
    else if n < 0x10000 then [(0xE0 + n2) as byte, (0x80 + n1 % 64) as byte, (0x80 + n % 64) as byte]
    else [(0xF0 + n3) as byte, (0x80 + n2 % 64) as byte, (0x80 + n1 % 64) as byte, (0x80 + n % 64) as byte]
  }

  function EncodeAll(text: string): seq<byte> {
    if text == "" then [] else Encode(text[0]) + EncodeAll(text[1..])
  }

  /** What may follow a lead byte of a three- or four-byte sequence. */
  predicate SecondOk(lead: byte, b: byte) {
    if lead == 0xE0 then 0xA0 <= b < 0xC0
    else if lead == 0xED then 0x80 <= b < 0xA0
    else if lead == 0xF0 then 0x90 <= b < 0xC0
    else if lead == 0xF4 then 0x80 <= b < 0x90
    else Continuation(b)
  }

  /** The length of the well-formed sequence, or of the maximal ill-formed one, in front. */
  function FrontLength(bs: seq<byte>): (n: nat)
    requires bs != []
    ensures 1 <= n <= |bs| && n <= 4
    ensures forall i :: 1 <= i < n ==> Continuation(bs[i])
  {
    var lead := bs[0];
    if 0xC2 <= lead < 0xE0 then
      if |bs| > 1 && Continuation(bs[1]) then 2 else 1
    else if 0xE0 <= lead < 0xF0 then
      if |bs| == 1 || !SecondOk(lead, bs[1]) then 1
      else if |bs| > 2 && Continuation(bs[2]) then 3 else 2
    else if 0xF0 <= lead < 0xF5 then
      if |bs| == 1 || !SecondOk(lead, bs[1]) then 1
      else if |bs| == 2 || !Continuation(bs[2]) then 2
      else if |bs| > 3 && Continuation(bs[3]) then 4 else 3
    else 1
  }

  /** The character a front sequence of full length stands for. */
  function Front(bs: seq<byte>): char
    requires bs != []
  {
    var lead, n := bs[0] as int, FrontLength(bs);
    if lead < 0x80 then lead as char
    else if n == 2 && lead < 0xE0 then Two(lead, bs[1] as int)
    else if n == 3 && lead < 0xF0 then Three(lead, bs[1] as int, bs[2] as int)
    else if n == 4 then Four(lead, bs[1] as int, bs[2] as int, bs[3] as int)
    else REPLACEMENT
  }

  function Two(b0: int, b1: int): char
    requires 0xC2 <= b0 < 0xE0 && 0x80 <= b1 < 0xC0
  {
    ((b0 - 0xC0) * 64 + (b1 - 0x80)) as char
  }

  function Three(b0: int, b1: int, b2: int): char
    requires 0xE0 <= b0 < 0xF0 && 0x80 <= b1 < 0xC0 && 0x80 <= b2 < 0xC0 && SecondOk(b0 as byte, b1 as byte)
  {
    (((b0 - 0xE0) * 64 + (b1 - 0x80)) * 64 + (b2 - 0x80)) as char
  }

  function Four(b0: int, b1: int, b2: int, b3: int): char
    requires 0xF0 <= b0 < 0xF5 && 0x80 <= b1 < 0xC0 && 0x80 <= b2 < 0xC0 && 0x80 <= b3 < 0xC0 &&
        SecondOk(b0 as byte, b1 as byte)
  {
    ((((b0 - 0xF0) * 64 + (b1 - 0x80)) * 64 + (b2 - 0x80)) * 64 + (b3 - 0x80)) as char
  }

  function Lossy(bs: seq<byte>): string {
    if bs == [] then "" else [Front(bs)] + Lossy(bs[FrontLength(bs)..])
  }

  lemma {:induction false} EncodedFront(c: char, bs: seq<byte>)
    requires |bs| >= |Encode(c)| && forall i :: 0 <= i < |Encode(c)| ==> bs[i] == Encode(c)[i]
    ensures FrontLength(bs) == |Encode(c)| && Front(bs) == c
  {
  }

  lemma {:induction false} DecodeFront(c: char, rest: seq<byte>)
    ensures FrontLength(Encode(c) + rest) == |Encode(c)| && Front(Encode(c) + rest) == c
    ensures (Encode(c) + rest)[|Encode(c)|..] == rest
  {
    EncodedFront(c, Encode(c) + rest);
  }

  lemma {:induction false} LossyStep(c: char, rest: seq<byte>)
    ensures Lossy(Encode(c) + rest) == [c] + Lossy(rest)
  {
    DecodeFront(c, rest);
  }

  lemma Assoc<T>(a: seq<T>, b: seq<T>, c: seq<T>)
    ensures a + b + c == a + (b + c)
  {
  }

  /** Whole characters decode to themselves, whatever follows them. */
  lemma {:induction false} LossyEncode(text: string, rest: seq<byte>)
    ensures Lossy(EncodeAll(text) + rest) == text + Lossy(rest)
  {
    if text == "" {
      assert EncodeAll(text) + rest == rest && text + Lossy(rest) == Lossy(rest);
    } else {
      LossyEncode(text[1..], rest);
      Assoc(Encode(text[0]), EncodeAll(text[1..]), rest);
      LossyStep(text[0], EncodeAll(text[1..]) + rest);
      Assoc([text[0]], text[1..], Lossy(rest));
      assert [text[0]] + text[1..] == text;
    }
  }

  /** The length of a text in bytes is the length of its encoding. */
  lemma {:induction false} ByteLenIs(text: string)
    ensures ByteLen(text) == |EncodeAll(text)|
  {
    if text != "" {
      ByteLenIs(text[1..]);
    }
  }

  /** The examples of section 7 of RFC 3629: one character of each length, and more. */
  lemma Rfc3629Examples()
    ensures Encode('A') == [0x41]
    ensures Encode('\U{2262}') == [0xE2, 0x89, 0xA2] && Encode('\U{0391}') == [0xCE, 0x91]
    ensures Encode('\U{D55C}') == [0xED, 0x95, 0x9C] && Encode('\U{65E5}') == [0xE6, 0x97, 0xA5]
    ensures Encode('\U{233B4}') == [0xF0, 0xA3, 0x8E, 0xB4]
  {
  }

  // ---------------------------------------------------------------- chunks

  function Concat<T>(chunks: seq<seq<T>>): seq<T> {
    if chunks == [] then [] else chunks[0] + Concat(chunks[1..])
  }

  /** Every chunk decoded on its own. */
  function LossyEach(chunks: seq<seq<byte>>): seq<string> {
    if chunks == [] then [] else [Lossy(chunks[0])] + LossyEach(chunks[1..])
  }

  predicate BeginsInside(chunk: seq<byte>) { chunk != [] && Continuation(chunk[0]) }

  function Leads(bs: seq<byte>): nat {
    if bs == [] then 0 else Leads(bs[1..]) + if Continuation(bs[0]) then 0 else 1
  }

  lemma {:induction false} LeadsConcat(a: seq<byte>, b: seq<byte>)
    ensures Leads(a + b) == Leads(a) + Leads(b)
  {
    if a == [] {
      assert a + b == b;
    } else {
      LeadsConcat(a[1..], b);
      assert (a + b)[1..] == a[1..] + b;
    }
  }

  lemma {:induction false} NoLeads(bs: seq<byte>)
    requires forall i :: 0 <= i < |bs| ==> Continuation(bs[i])
    ensures Leads(bs) == 0
  {
    if bs != [] {
      NoLeads(bs[1..]);
    }
  }

  lemma FrontLeads(bs: seq<byte>, n: nat)
    requires 1 <= n <= |bs| && forall i :: 1 <= i < n ==> Continuation(bs[i])
    ensures Leads(bs) == (if Continuation(bs[0]) then 0 else 1) + Leads(bs[n..])
  {
    assert bs == [bs[0]] + bs[1..n] + bs[n..];
    LeadsConcat([bs[0]] + bs[1..n], bs[n..]);
    LeadsConcat([bs[0]], bs[1..n]);
    NoLeads(bs[1..n]);
    assert [bs[0]][1..] == [];
  }

  lemma {:induction false} LeadsEncode(text: string)
    ensures Leads(EncodeAll(text)) == |text|
  {
    if text != "" {
      var bs := EncodeAll(text);
      LeadsEncode(text[1..]);
      assert forall i :: 0 <= i < |Encode(text[0])| ==> bs[i] == Encode(text[0])[i];
      FrontLeads(bs, |Encode(text[0])|);
      assert bs[|Encode(text[0])|..] == EncodeAll(text[1..]);
    }
  }

  /** A decoded character uses at most one lead byte, and none if it began inside a character. */
  lemma {:induction false} LossyLength(bs: seq<byte>)
    ensures |Lossy(bs)| >= Leads(bs) + if BeginsInside(bs) then 1 else 0
    decreases |bs|
  {
    if bs != [] {
      LossyLength(bs[FrontLength(bs)..]);
      FrontLeads(bs, FrontLength(bs));
    }
  }

  lemma {:induction false} LossyEachLength(chunks: seq<seq<byte>>)
    ensures |Concat(LossyEach(chunks))| >= Leads(Concat(chunks))
    ensures (exists i :: 0 <= i < |chunks| && BeginsInside(chunks[i])) ==>
              |Concat(LossyEach(chunks))| > Leads(Concat(chunks))
  {
    if chunks != [] {
      LossyEachLength(chunks[1..]);
      LossyLength(chunks[0]);
      LeadsConcat(chunks[0], Concat(chunks[1..]));
      assert LossyEach(chunks)[1..] == LossyEach(chunks[1..]);
      if i :| 0 <= i < |chunks| && BeginsInside(chunks[i]) {
        assert i > 0 ==> BeginsInside(chunks[1..][i - 1]);
      }
    }
  }

  /** A cut that is not before a continuation byte is not inside the first character. */
  lemma CutPastFirst(c: char, rest: seq<byte>, a: seq<byte>, b: seq<byte>)
    requires Encode(c) + rest == a + b && a != [] && !BeginsInside(b)
    ensures |a| >= |Encode(c)| && a == Encode(c) + a[|Encode(c)|..] && a[|Encode(c)|..] + b == rest
  {
    var n, whole := |Encode(c)|, Encode(c) + rest;
    assert a == whole[..|a|] && b == whole[|a|..];
    if |a| >= n {
      assert a[..n] == whole[..n] == Encode(c);
      assert a[n..] + b == whole[n..] == rest;
    }
  }

  /** A cut of encoded text that does not fall before a continuation byte falls between characters. */
  lemma {:induction false} CutBetweenCharacters(text: string, a: seq<byte>, b: seq<byte>) returns (k: nat)
    requires EncodeAll(text) == a + b && !BeginsInside(b)
    ensures k <= |text| && a == EncodeAll(text[..k]) && b == EncodeAll(text[k..])
  {
    if a == [] {
      k := 0;
      assert text[k..] == text && a + b == b;
    } else {
      CutPastFirst(text[0], EncodeAll(text[1..]), a, b);
      var k' := CutBetweenCharacters(text[1..], a[|Encode(text[0])|..], b);
      k := k' + 1;
      assert text[..k][0] == text[0] && text[..k][1..] == text[1..][..k'];
      assert text[k..] == text[1..][k'..];
    }
  }

  lemma {:induction false} FirstOfConcat(chunks: seq<seq<byte>>)
    requires forall i :: 0 <= i < |chunks| ==> !BeginsInside(chunks[i])
    ensures !BeginsInside(Concat(chunks))
  {
    if chunks != [] {
      FirstOfConcat(chunks[1..]);
    }
  }

  lemma {:induction false} LossyWhole(text: string)
    ensures Lossy(EncodeAll(text)) == text
  {
    LossyEncode(text, []);
    assert EncodeAll(text) + [] == EncodeAll(text);
    assert text + Lossy([]) == text;
  }

  lemma {:induction false} LossyEachStep(first: seq<byte>, rest: seq<seq<byte>>)
    ensures Concat(LossyEach([first] + rest)) == Lossy(first) + Concat(LossyEach(rest))
  {
    assert ([first] + rest)[1..] == rest;
    assert LossyEach([first] + rest)[1..] == LossyEach(rest);
  }

  lemma {:induction false} LossyEachWhole(text: string, chunks: seq<seq<byte>>)
    requires Concat(chunks) == EncodeAll(text)
    requires forall i :: 0 <= i < |chunks| ==> !BeginsInside(chunks[i])
    ensures Concat(LossyEach(chunks)) == text
  {
    if chunks == [] {
      LeadsEncode(text);
    } else {
      FirstOfConcat(chunks[1..]);
      var k := CutBetweenCharacters(text, chunks[0], Concat(chunks[1..]));
      LossyEachWhole(text[k..], chunks[1..]);
      LossyWhole(text[..k]);
      LossyEachStep(chunks[0], chunks[1..]);
      assert chunks == [chunks[0]] + chunks[1..];
      assert text == text[..k] + text[k..];
    }
  }

  /** Decoding chunk by chunk restores the text exactly when no chunk begins inside a character. */
  lemma ChunkedDecoding(text: string, chunks: seq<seq<byte>>)
    requires Concat(chunks) == EncodeAll(text)
    ensures Concat(LossyEach(chunks)) == text <==> forall i :: 0 <= i < |chunks| ==> !BeginsInside(chunks[i])
  {
    LeadsEncode(text);
    LossyEachLength(chunks);
    if forall i :: 0 <= i < |chunks| ==> !BeginsInside(chunks[i]) {
      LossyEachWhole(text, chunks);
    }
  }

  /** The boundary is real: a two-byte character cut in half is lost. */
  lemma SplitCharacterIsLost()
    ensures Concat([[0xC3 as byte], [0xA9 as byte]]) == EncodeAll("\U{E9}")
    ensures Concat(LossyEach([[0xC3 as byte], [0xA9 as byte]])) != "\U{E9}"
  {
    var chunks := [[0xC3 as byte], [0xA9 as byte]];
    assert chunks[1..] == [[0xA9 as byte]] && chunks[1..][1..] == [];
    var text := "\U{E9}";
    assert text[1..] == "" && Encode(text[0]) == [0xC3, 0xA9];
    assert BeginsInside(chunks[1]);
    ChunkedDecoding(text, chunks);
  }
}
