/** The hex parser for Thread dataset TLVs.  A text stands for the characters before the
    terminating zero of the C string. */
module HexSpec {
  import opened Bytes

  type Digit = x: int | 0 <= x < 16

  datatype Error = Invalid | NoSpace
  datatype Result = Parsed(bytes: seq<Byte>) | Rejected(error: Error)

  function HexNibble(c: char): (n: int)
    ensures -1 <= n < 16
  {
    if '0' <= c <= '9' then c as int - '0' as int
    else if 'a' <= c <= 'f' then 10 + (c as int - 'a' as int)
    else if 'A' <= c <= 'F' then 10 + (c as int - 'A' as int)
    else -1
  }

  predicate Skipped(c: char) {
    c == ' ' || c == '\n' || c == '\r' || c == '\t' || c == ':' || c == 'x' || c == 'X'
  }

  predicate IsDigit(c: char) { HexNibble(c) >= 0 }

  predicate Legal(c: char) { Skipped(c) || IsDigit(c) }

  /** The digits among the first `n` characters, in order. */
  function Digits(text: string, n: nat): seq<Digit>
    requires n <= |text|
  {
    if n == 0 then []
    else if IsDigit(text[n - 1]) then Digits(text, n - 1) + [HexNibble(text[n - 1])]
    else Digits(text, n - 1)
  }

  /** The bytes spelled by digits taken two at a time; an odd last digit spells nothing. */
  function Pairs(ds: seq<Digit>): (bs: seq<Byte>)
    ensures |bs| == |ds| / 2
  {
    seq(|ds| / 2, i requires 0 <= i < |ds| / 2 => Pair(ds[2 * i], ds[2 * i + 1]))
  }

  function Pair(high: Digit, low: Digit): Byte { 16 * high + low }

  /** The first illegal character from position `i` on. */
  function FirstIllegal(text: string, i: nat): (k: nat)
    requires i <= |text|
    ensures i <= k <= |text|
    ensures forall j :: i <= j < k ==> Legal(text[j])
    ensures k < |text| ==> !Legal(text[k])
    decreases |text| - i
  {
    if i == |text| || !Legal(text[i]) then i else FirstIllegal(text, i + 1)
  }

  function LegalLength(text: string): (k: nat)
    ensures k <= |text|
    ensures forall j :: 0 <= j < k ==> Legal(text[j])
    ensures k < |text| ==> !Legal(text[k])
  {
    FirstIllegal(text, 0)
  }

  /** The digits that the parser gets to see. */
  function Seen(text: string): seq<Digit> { Digits(text, LegalLength(text)) }

  function Parse(text: string, cap: nat): Result {
    var ds := Seen(text);
    if |ds| / 2 > cap then Rejected(NoSpace)
    else if LegalLength(text) < |text| || |ds| % 2 == 1 then Rejected(Invalid)
    else Parsed(Pairs(ds))
  }

  /** The output array after the parse: paired digits as far as there is room, the rest untouched. */
  function Output(text: string, before: seq<Byte>): (after: seq<Byte>)
    ensures |after| == |before|
  {
    var w := Min(|Seen(text)| / 2, |before|);
    Pairs(Seen(text))[..w] + before[w..]
  }

  lemma {:induction false} DigitsPrefix(text: string, i: nat, k: nat)
    requires i <= k <= |text|
    ensures Digits(text, i) <= Digits(text, k)
    decreases k
  {
    if i < k { DigitsPrefix(text, i, k - 1); }
  }

  lemma {:induction false} DigitsAppend(a: string, b: string, n: nat)
    requires n <= |b|
    ensures Digits(a + b, |a| + n) == Digits(a, |a|) + Digits(b, n)
    decreases n
  {
    if n == 0 {
      DigitsOfFront(a, b, |a|);
    } else {
      DigitsAppend(a, b, n - 1);
    }
  }

  lemma {:induction false} DigitsOfFront(a: string, b: string, n: nat)
    requires n <= |a|
    ensures Digits(a + b, n) == Digits(a, n)
    decreases n
  {
    if n > 0 { DigitsOfFront(a, b, n - 1); }
  }

  lemma PairsPrefix(a: seq<Digit>, b: seq<Digit>)
    requires a <= b
    ensures Pairs(a) <= Pairs(b)
  {}
}

/** The parser itself, writing its output in place. */
module HexParser {
  import opened Bytes
  import opened HexSpec

  /** `out` holds the bytes written so far also when the text is rejected; `len` is set on success
      only. */
  method ParseHex(text: string, out: array<Byte>) returns (err: Option<Error>, len: Option<nat>)
    modifies out
    ensures match Parse(text, out.Length)
            case Parsed(bs) => err == None && len == Some(|bs|)
            case Rejected(e) => err == Some(e) && len == None
    ensures out[..] == Output(text, old(out[..]))
  {
    var w := 0;
    var high := -1;
    ghost var before := out[..];
    ghost var ds: seq<Digit> := [];
    var i := 0;
    while i < |text|
      invariant 0 <= i <= LegalLength(text) && w <= out.Length
      invariant ds == Digits(text, i) && ds <= Seen(text) && Holds(ds, w, high)
      invariant out[..] == Pairs(ds) + before[w..]
    {
      var c := text[i];
      Next(text, i);
      if Skipped(c) {
        i := i + 1;
        continue;
      }
      var n := HexNibble(c);
      if n < 0 {
        Whole(text, before, w);
        return Some(Invalid), None;
      }
      ghost var now := out[..];
      if high < 0 {
        Lone(ds, w, n);
        high := n;
      } else {
        Couple(ds, w, high, n);
        if w >= out.Length {
          Full(text, ds + [n], before, w);
          return Some(NoSpace), None;
        }
        Stored(now, ds, w, high, n, before);
        out[w] := 16 * high + n;
        assert out[..] == now[w := Pair(high, n)];
        w := w + 1;
        high := -1;
      }
      ds := ds + [n];
      i := i + 1;
    }
    Whole(text, before, w);
    if high >= 0 {
      return Some(Invalid), None;
    }
    return None, Some(w);
  }

  /** `w` bytes are complete and `high` is the digit waiting for its partner. */
  ghost predicate Holds(ds: seq<Digit>, w: nat, high: int) {
    |ds| == 2 * w + (if high < 0 then 0 else 1) && (high >= 0 ==> ds[2 * w] == high)
  }

  /** What the next character adds to the digits; they stay a beginning of those seen in the end. */
  lemma Next(text: string, i: nat)
    requires i < |text| && i <= LegalLength(text)
    ensures i < LegalLength(text) <==> Legal(text[i])
    ensures Legal(text[i]) ==> Digits(text, i + 1) <= Seen(text)
  {
    if i < LegalLength(text) { DigitsPrefix(text, i + 1, LegalLength(text)); }
  }

  lemma Lone(ds: seq<Digit>, w: nat, n: Digit)
    requires |ds| == 2 * w
    ensures Pairs(ds + [n]) == Pairs(ds) && Holds(ds + [n], w, n)
  {}

  lemma Couple(ds: seq<Digit>, w: nat, high: Digit, n: Digit)
    requires |ds| == 2 * w + 1 && ds[2 * w] == high
    ensures Pairs(ds + [n]) == Pairs(ds) + [Pair(high, n)] && |Pairs(ds)| == w && Holds(ds + [n], w + 1, -1)
  {}

  lemma Stored(now: seq<Byte>, ds: seq<Digit>, w: nat, high: Digit, n: Digit, before: seq<Byte>)
    requires |ds| == 2 * w + 1 && ds[2 * w] == high && w < |before|
    requires now == Pairs(ds) + before[w..]
    ensures now[w := Pair(high, n)] == Pairs(ds + [n]) + before[w + 1..]
  {
    Couple(ds, w, high, n);
    assert now[w := Pair(high, n)] == Pairs(ds) + [Pair(high, n)] + before[w + 1..];
  }

  /** All digits were seen and found room. */
  lemma Whole(text: string, before: seq<Byte>, w: nat)
    requires |Seen(text)| / 2 == w <= |before|
    ensures Output(text, before) == Pairs(Seen(text)) + before[w..]
    ensures LegalLength(text) < |text| || |Seen(text)| % 2 == 1 ==> Parse(text, |before|) == Rejected(Invalid)
    ensures LegalLength(text) == |text| && |Seen(text)| % 2 == 0 ==> Parse(text, |before|) == Parsed(Pairs(Seen(text)))
  {}

  /** The digits seen spell more bytes than there is room for. */
  lemma Full(text: string, ds: seq<Digit>, before: seq<Byte>, w: nat)
    requires ds <= Seen(text) && |ds| == 2 * w + 2 && w == |before|
    ensures Output(text, before) == Pairs(ds)[..w] + before[w..]
    ensures Parse(text, |before|) == Rejected(NoSpace)
  {
    PairsPrefix(ds, Seen(text));
  }
}

/** What the parser accepts, told by the texts that a printer may write. */
module HexTheorems {
  import opened Bytes
  import opened HexSpec

  const LOWER := "0123456789abcdef"
  const UPPER := "0123456789ABCDEF"

  /** The values of the digits, and that nothing else is one. */
  lemma DigitValues(c: char)
    ensures forall n: Digit :: HexNibble(c) == n <==> c == LOWER[n] || c == UPPER[n]
    ensures IsDigit(c) <==> c in LOWER || c in UPPER
  {
    assert c in LOWER <==> exists n: Digit :: LOWER[n] == c;
    assert c in UPPER <==> exists n: Digit :: UPPER[n] == c;
  }

  lemma SkippedAre(c: char)
    ensures Skipped(c) <==> c in " \n\r\t:xX"
  {}

  function Nibbles(bs: seq<Byte>): (ds: seq<Digit>)
    ensures |ds| == 2 * |bs|
  {
    seq(2 * |bs|, i requires 0 <= i < 2 * |bs| => if i % 2 == 0 then bs[i / 2] / 16 else bs[i / 2] % 16)
  }

  /** The first `n` characters spell the digits in either case, with skipped characters anywhere. */
  ghost predicate SpellsUpTo(text: string, n: nat, ds: seq<Digit>)
    requires n <= |text|
    decreases n
  {
    if n == 0 then ds == []
    else
      || (Skipped(text[n - 1]) && SpellsUpTo(text, n - 1, ds))
      || (ds != [] && HexNibble(text[n - 1]) == ds[|ds| - 1] && SpellsUpTo(text, n - 1, ds[..|ds| - 1]))
  }

  ghost predicate Spells(text: string, ds: seq<Digit>) { SpellsUpTo(text, |text|, ds) }

  lemma {:induction false} SpellsIff(text: string, n: nat, ds: seq<Digit>)
    requires n <= |text|
    ensures SpellsUpTo(text, n, ds) <==> n <= LegalLength(text) && Digits(text, n) == ds
    decreases n
  {
    if n > 0 {
      SpellsIff(text, n - 1, ds);
      if ds != [] {
        SpellsIff(text, n - 1, ds[..|ds| - 1]);
        assert ds == ds[..|ds| - 1] + [ds[|ds| - 1]];
      }
    }
  }

  lemma PairsOfNibbles(bs: seq<Byte>)
    ensures Pairs(Nibbles(bs)) == bs
  {}

  lemma NibblesOfPairs(ds: seq<Digit>)
    requires |ds| % 2 == 0
    ensures Nibbles(Pairs(ds)) == ds
  {
    forall i | 0 <= i < |ds|
      ensures Nibbles(Pairs(ds))[i] == ds[i]
    {
      NibbleOfPair(ds, i / 2);
      assert i == 2 * (i / 2) || i == 2 * (i / 2) + 1;
    }
  }

  lemma NibbleOfPair(ds: seq<Digit>, j: nat)
    requires 2 * j + 1 < |ds|
    ensures Pairs(ds)[j] / 16 == ds[2 * j] && Pairs(ds)[j] % 16 == ds[2 * j + 1]
  {}

  lemma PairsIff(ds: seq<Digit>, bs: seq<Byte>)
    ensures |ds| % 2 == 0 && Pairs(ds) == bs <==> ds == Nibbles(bs)
  {
    PairsOfNibbles(bs);
    if |ds| % 2 == 0 { NibblesOfPairs(ds); }
  }

  lemma ParsedIff(text: string, cap: nat, bs: seq<Byte>)
    ensures Parse(text, cap) == Parsed(bs) <==>
            var ds := Digits(text, |text|);
            LegalLength(text) == |text| && |ds| % 2 == 0 && |ds| / 2 <= cap && Pairs(ds) == bs
  {}

  /** Characterisation and round trip: parsing gives `bs` exactly when the text is a printing of
      `bs`, in any case and with skipped characters anywhere, and `bs` fits. */
  lemma ParsesIffPrinted(text: string, cap: nat, bs: seq<Byte>)
    ensures Parse(text, cap) == Parsed(bs) <==> Spells(text, Nibbles(bs)) && |bs| <= cap
  {
    ParsedIff(text, cap, bs);
    PairsIff(Digits(text, |text|), bs);
    SpellsIff(text, |text|, Nibbles(bs));
  }

  /** Success in terms of the characters alone. */
  lemma SucceedsIff(text: string, cap: nat)
    ensures Parse(text, cap).Parsed? <==>
            && (forall i :: 0 <= i < |text| ==> Legal(text[i]))
            && |Digits(text, |text|)| % 2 == 0 && |Digits(text, |text|)| / 2 <= cap
  {
    ParsedIff(text, cap, Pairs(Digits(text, |text|)));
  }

  /** The parser runs out of room exactly when some beginning of the text, without an illegal character,
      holds the digits of one byte more than there is room for. */
  lemma NoSpaceIff(text: string, cap: nat)
    ensures Parse(text, cap) == Rejected(NoSpace) <==>
            exists i :: 0 <= i <= |text| && (forall j :: 0 <= j < i ==> Legal(text[j]))
                        && |Digits(text, i)| == 2 * cap + 2
  {
    var k := LegalLength(text);
    if |Digits(text, k)| >= 2 * cap + 2 {
      var i := Reaches(text, k, 2 * cap + 2);
    }
    forall i | 0 <= i <= |text| && (forall j :: 0 <= j < i ==> Legal(text[j])) && |Digits(text, i)| == 2 * cap + 2
      ensures |Digits(text, k)| >= 2 * cap + 2
    {
      assert i <= k;
      DigitsPrefix(text, i, k);
    }
  }

  /** Digits come one at a time. */
  lemma {:induction false} Reaches(text: string, k: nat, n: nat) returns (i: nat)
    requires k <= |text| && n <= |Digits(text, k)|
    ensures i <= k && |Digits(text, i)| == n
  {
    i := k;
    while |Digits(text, i)| != n
      invariant i <= k && n <= |Digits(text, i)|
      decreases i
    {
      i := i - 1;
    }
  }

  // ----- the "0x" of the parser's own comment -----

  /** A piece of a dump: bytes and a printing of them. */
  datatype Piece = Piece(bytes: seq<Byte>, text: string)

  /** Every piece is written with "0x" in front of it. */
  function Marked(pieces: seq<Piece>): string {
    if pieces == [] then "" else Marked(pieces[..|pieces| - 1]) + "0x" + pieces[|pieces| - 1].text
  }

  function ByteCount(pieces: seq<Piece>): nat {
    if pieces == [] then 0 else ByteCount(pieces[..|pieces| - 1]) + |pieces[|pieces| - 1].bytes|
  }

  ghost predicate Printed(pieces: seq<Piece>) {
    forall i :: 0 <= i < |pieces| ==> Spells(pieces[i].text, Nibbles(pieces[i].bytes))
  }

  predicate AllLegal(text: string) { forall i :: 0 <= i < |text| ==> Legal(text[i]) }

  lemma {:induction false} MarkedDigits(pieces: seq<Piece>)
    requires Printed(pieces)
    ensures AllLegal(Marked(pieces))
    ensures |Digits(Marked(pieces), |Marked(pieces)|)| == |pieces| + 2 * ByteCount(pieces)
    decreases |pieces|
  {
    if pieces != [] {
      var front, piece := pieces[..|pieces| - 1], pieces[|pieces| - 1];
      MarkedDigits(front);
      SpellsIff(piece.text, |piece.text|, Nibbles(piece.bytes));
      MarkDigits();
      DigitsAppend(Marked(front), "0x", 2);
      DigitsAppend(Marked(front) + "0x", piece.text, |piece.text|);
    }
  }

  lemma MarkDigits()
    ensures Digits("0x", 2) == [0] && AllLegal("0x")
  {
    assert Digits("0x", 1) == Digits("0x", 0) + [0];
  }

  /** Only the `x` of a "0x" is skipped, its zero counts as a digit: a dump of marked pieces is
      accepted exactly when the number of marks is even and there is room for half as many bytes
      more than were printed. */
  lemma MarkedIff(pieces: seq<Piece>, cap: nat)
    requires Printed(pieces)
    ensures Parse(Marked(pieces), cap).Parsed? <==> |pieces| % 2 == 0 && |pieces| / 2 + ByteCount(pieces) <= cap
    ensures Parse(Marked(pieces), cap).Parsed? ==>
              |Parse(Marked(pieces), cap).bytes| == |pieces| / 2 + ByteCount(pieces)
  {
    MarkedDigits(pieces);
    LegalTextParses(Marked(pieces), cap, |pieces|, ByteCount(pieces));
  }

  lemma LegalTextParses(text: string, cap: nat, n: nat, b: nat)
    requires AllLegal(text) && |Digits(text, |text|)| == n + 2 * b
    ensures Parse(text, cap).Parsed? <==> n % 2 == 0 && n / 2 + b <= cap
    ensures Parse(text, cap).Parsed? ==> |Parse(text, cap).bytes| == n / 2 + b
  {
    assert LegalLength(text) == |text|;
  }

  /** So one leading "0x" makes the parser reject what it accepts without it. */
  lemma LeadingMarkRejected(text: string, bs: seq<Byte>, cap: nat)
    requires Parse(text, cap) == Parsed(bs)
    ensures Parse("0x" + text, cap) == Rejected(Invalid)
  {
    ParsesIffPrinted(text, cap, bs);
    var pieces := [Piece(bs, text)];
    assert pieces[..0] == [] && "" + "0x" + text == "0x" + text;
    assert ByteCount(pieces[..0]) == 0;
    MarkedDigits(pieces);
    assert Marked(pieces) == "0x" + text;
  }
}
