/** Every legal spelling of a string (section 7 of RFC 8259), and the proof that the decoder accepts exactly these. */
module JsonSpellings {
  import opened Wrappers
  import opened JsonStrings

  // ----- one character -----

  ghost predicate Nibble(c: char, value: nat) {
    value < 16 && (c == "0123456789abcdef"[value] || c == "0123456789ABCDEF"[value])
  }

  /** Four hexadecimal digits that denote `n`. */
  ghost predicate Hex(digits: string, n: int) {
    |digits| == 4 && exists a: nat, b: nat, c: nat, d: nat ::
      Nibble(digits[0], a) && Nibble(digits[1], b) && Nibble(digits[2], c) && Nibble(digits[3], d) &&
      n == a * 4096 + b * 256 + c * 16 + d
  }

  /** The letters that may follow a backslash, with the characters they stand for. */
  const SHORT: set<(char, char)> := {
    ('"', '"'), ('\\', '\\'), ('/', '/'), ('b', '\U{8}'), ('f', '\U{C}'), ('n', '\n'), ('r', '\r'), ('t', '\t')}

  ghost predicate Bare(piece: string, c: char) {
    piece == [c] && c != '"' && c != '\\' && ' ' <= c
  }

  ghost predicate Shortened(piece: string, c: char) {
    |piece| == 2 && piece[0] == '\\' && (piece[1], c) in SHORT
  }

  ghost predicate Numbered(piece: string, n: int) {
    |piece| == 6 && piece[0] == '\\' && piece[1] == 'u' && Hex(piece[2..], n)
  }

  /** Two numbered surrogates for a character beyond the basic plane. */
  ghost predicate PairOf(piece: string, high: int, low: int) {
    |piece| == 12 && Numbered(piece[..6], high) && Numbered(piece[6..], low) && 0xD800 <= high < 0xDC00 <= low < 0xE000
  }

  ghost predicate Paired(piece: string, c: char) {
    exists high, low :: PairOf(piece, high, low) && c as int == 0x10000 + (high - 0xD800) * 0x400 + (low - 0xDC00)
  }

  ghost predicate Spelled(piece: string, c: char) {
    Bare(piece, c) || Shortened(piece, c) || Numbered(piece, c as int) || Paired(piece, c)
  }

  /** `body` is a spelling of `text`, character by character. */
  ghost predicate SpellsText(body: string, text: string)
    decreases |text|
  {
    if text == "" then body == ""
    else exists n :: 1 <= n <= |body| && Spelled(body[..n], text[0]) && SpellsText(body[n..], text[1..])
  }

  // ----- hexadecimal digits -----

  lemma DecimalNibble(c: char, value: nat)
    ensures '0' <= c <= '9' ==> (Nibble(c, value) <==> value == c as int - '0' as int)
  {
  }

  lemma LetterNibble(c: char, value: nat)
    ensures 'a' <= c <= 'f' ==> (Nibble(c, value) <==> value == c as int - 'a' as int + 10)
    ensures 'A' <= c <= 'F' ==> (Nibble(c, value) <==> value == c as int - 'A' as int + 10)
    ensures !IsHex(c) ==> !Nibble(c, value)
  {
  }

  lemma NibbleMeans(c: char)
    ensures IsHex(c) <==> exists value: nat :: Nibble(c, value)
    ensures forall value: nat :: Nibble(c, value) ==> IsHex(c) && HexValue(c) == value
  {
    forall value: nat ensures Nibble(c, value) <==> IsHex(c) && HexValue(c) == value {
      DecimalNibble(c, value);
      LetterNibble(c, value);
    }
    if IsHex(c) { assert Nibble(c, HexValue(c)); }
  }

  lemma UnitMeans(body: string, n: int)
    ensures |body| >= 6 && Numbered(body[..6], n) <==> CodeUnit(body).Some? && CodeUnit(body).value == n
  {
    if |body| >= 6 {
      var digits := body[..6][2..];
      assert digits[0] == body[2] && digits[1] == body[3] && digits[2] == body[4] && digits[3] == body[5];
      NibbleMeans(body[2]);
      NibbleMeans(body[3]);
      NibbleMeans(body[4]);
      NibbleMeans(body[5]);
      if CodeUnit(body).Some? {
        assert Nibble(digits[0], HexValue(body[2])) && Nibble(digits[1], HexValue(body[3]));
        assert Nibble(digits[2], HexValue(body[4])) && Nibble(digits[3], HexValue(body[5]));
      }
    }
  }

  lemma ShortMeans(letter: char, c: char)
    ensures (letter, c) in SHORT <==> ShortEscape(letter) == Some(c)
  {
  }

  // ----- decoding one spelling -----

  lemma BareDecodes(body: string, c: char)
    requires body != "" && Bare(body[..1], c)
    ensures Decode(body) == Prepend(c, Decode(body[1..]))
  {
    assert body[..1][0] == body[0];
  }

  lemma ShortDecodes(body: string, c: char)
    requires |body| >= 2 && Shortened(body[..2], c)
    ensures Decode(body) == Prepend(c, Decode(body[2..]))
  {
    ShortMeans(body[1], c);
    assert body[..2][0] == body[0] && body[..2][1] == body[1];
  }

  /** What stands behind a backslash and the letter `u`. */
  lemma UnitStep(body: string, unit: nat)
    requires CodeUnit(body) == Some(unit)
    ensures Decode(body) ==
      if unit < 0xD800 || 0xE000 <= unit then Prepend(unit as char, Decode(body[6..]))
      else
        match CodeUnit(body[6..])
        case None => None
        case Some(low) =>
          if unit < 0xDC00 && 0xDC00 <= low < 0xE000 then
            Prepend((0x10000 + (unit - 0xD800) * 0x400 + (low - 0xDC00)) as char, Decode(body[12..]))
          else None
  {
    assert body[0] == '\\' && body[1] == 'u';
    assert ShortEscape('u') == None;
  }

  lemma NumberDecodes(body: string, c: char)
    requires |body| >= 6 && Numbered(body[..6], c as int)
    ensures Decode(body) == Prepend(c, Decode(body[6..]))
  {
    UnitMeans(body, c as int);
    UnitStep(body, c as int);
  }

  lemma PairMeans(body: string, high: int, low: int)
    requires |body| >= 12
    ensures PairOf(body[..12], high, low) <==>
      CodeUnit(body).Some? && CodeUnit(body).value == high && CodeUnit(body[6..]).Some? &&
      CodeUnit(body[6..]).value == low && 0xD800 <= high < 0xDC00 <= low < 0xE000
  {
    assert body[..12][..6] == body[..6] && body[..12][6..] == body[6..][..6];
    UnitMeans(body, high);
    UnitMeans(body[6..], low);
  }

  lemma PairDecodes(body: string, high: int, low: int)
    requires |body| >= 12 && PairOf(body[..12], high, low)
    ensures Decode(body) ==
      Prepend((0x10000 + (high - 0xD800) * 0x400 + (low - 0xDC00)) as char, Decode(body[12..]))
  {
    PairMeans(body, high, low);
    UnitStep(body, high);
  }

  lemma SpelledDecodes(body: string, n: nat, c: char)
    requires n <= |body| && Spelled(body[..n], c)
    ensures n >= 1 && Decode(body) == Prepend(c, Decode(body[n..]))
  {
    if Bare(body[..n], c) {
      BareDecodes(body, c);
    } else if Shortened(body[..n], c) {
      ShortDecodes(body, c);
    } else if Numbered(body[..n], c as int) {
      NumberDecodes(body, c);
    } else {
      var high, low :|
        PairOf(body[..n], high, low) && c as int == 0x10000 + (high - 0xD800) * 0x400 + (low - 0xDC00);
      PairDecodes(body, high, low);
    }
  }

  /** Whatever is decoded begins with a legal spelling. */
  lemma DecodedIsSpelled(body: string) returns (n: nat)
    requires Decode(body).Some? && body != ""
    ensures 1 <= n <= |body| && Decode(body).value != "" && Spelled(body[..n], Decode(body).value[0])
    ensures Decode(body[n..]) == Some(Decode(body).value[1..])
  {
    var c := Decode(body).value[0];
    if body[0] != '\\' {
      n := 1;
      assert Bare(body[..1], c);
    } else if |body| >= 2 && ShortEscape(body[1]).Some? {
      n := 2;
      ShortMeans(body[1], c);
      assert Shortened(body[..2], c);
    } else {
      var unit := CodeUnit(body).value;
      UnitMeans(body, unit);
      if unit < 0xD800 || 0xE000 <= unit {
        n := 6;
        assert Numbered(body[..6], c as int);
      } else {
        n := 12;
        var low := CodeUnit(body[6..]).value;
        PairMeans(body, unit, low);
        assert PairOf(body[..12], unit, low);
      }
    }
  }

  /** The decoder answers a text exactly for its legal spellings, and nothing for every other body. */
  lemma {:induction false} DecodeExactly(body: string, text: string)
    ensures Decode(body) == Some(text) <==> SpellsText(body, text)
    decreases |text|
  {
    if Decode(body) == Some(text) && body != "" {
      var n := DecodedIsSpelled(body);
      DecodeExactly(body[n..], text[1..]);
    }
    if SpellsText(body, text) && text != "" {
      var n :| 1 <= n <= |body| && Spelled(body[..n], text[0]) && SpellsText(body[n..], text[1..]);
      SpelledDecodes(body, n, text[0]);
      DecodeExactly(body[n..], text[1..]);
      assert [text[0]] + text[1..] == text;
    }
  }
}
