/** Strings: parse_string reads exactly the strings of the grammar whose surrogate escapes are
    paired, as what they mean. */
module JsonStrings {
  import opened Bytes
  import opened Utf16
  import opened JsonReader
  import opened JsonSyntax

  // ----- the sizing pass -----

  /** It ends at the first quote that is left over. */
  lemma {:induction false} ClosesAt(c: bytes, p: nat, end: nat)
    requires p <= end < |c|
    ensures CloseQuote(c, p) == Some(end) <==> c[end] == QUOTE && Unclosed(c[p..end])
    decreases end - p
  {
    var s := c[p..end];
    if p < end {
      if c[p] == BACKSLASH {
        if p + 2 <= end {
          assert s[2..] == c[p + 2..end];
          ClosesAt(c, p + 2, end);
        }
      } else {
        assert s[1..] == c[p + 1..end];
        ClosesAt(c, p + 1, end);
      }
    }
  }

  // ----- characters -----

  lemma RenderOne(us: seq<Unit>)
    requires us != []
    ensures RenderUnits(us) == RenderUnit(us[0]) + RenderUnits(us[1..])
  {}

  lemma NoUnits()
    ensures RenderUnits([]) == [] && GoodPieces([]) && UnitsMeaning([]) == [] && Paired([])
  {}

  /** The text of the first character. */
  function FirstText(us: seq<Unit>): bytes
    requires us != []
  {
    if Width(us) == 2 then RenderUnit(us[0]) + RenderUnit(us[1]) else RenderUnit(us[0])
  }

  lemma RenderFirst(us: seq<Unit>)
    requires us != []
    ensures RenderUnits(us) == FirstText(us) + RenderUnits(us[Width(us)..])
  {
    hide RenderUnits, RenderUnit, High, Low;
    RenderOne(us);
    if Width(us) == 2 {
      RenderOne(us[1..]);
      assert us[1..][1..] == us[2..];
      Regroup(RenderUnit(us[0]), RenderUnit(us[1]), RenderUnits(us[2..]));
    }
  }

  lemma GoodRest(us: seq<Unit>, n: nat)
    requires GoodPieces(us) && n <= |us|
    ensures GoodPieces(us[n..])
  {}

  /** A surrogate that has no partner stands first. */
  predicate Stranded(us: seq<Unit>)
    requires us != []
  {
    Low(us[0]) || (High(us[0]) && Width(us) == 1)
  }

  lemma PairedAtRest(us: seq<Unit>, n: nat, i: nat)
    requires 0 < n <= |us| && !High(us[n - 1]) && i < |us| - n
    ensures PairedAt(us[n..], i) <==> PairedAt(us, n + i)
  {
    assert us[n..][i] == us[n + i];
    if i > 0 {
      assert us[n..][i - 1] == us[n + i - 1];
    }
    if i + 1 < |us| - n {
      assert us[n..][i + 1] == us[n + i + 1];
    }
  }

  lemma FirstPaired(us: seq<Unit>)
    requires us != [] && !Stranded(us)
    ensures forall i :: 0 <= i < Width(us) ==> PairedAt(us, i)
    ensures !High(us[Width(us) - 1])
  {}

  /** Taking the first character off leaves the pairing of the rest as it is. */
  lemma PairedRest(us: seq<Unit>)
    requires us != []
    ensures Paired(us) <==> !Stranded(us) && Paired(us[Width(us)..])
  {
    hide PairedAt, Width, High, Low;
    var n := Width(us);
    if Stranded(us) {
      StrandedUnpaired(us);
    } else {
      FirstPaired(us);
      forall i | 0 <= i < |us| - n ensures PairedAt(us[n..], i) <==> PairedAt(us, n + i) {
        PairedAtRest(us, n, i);
      }
      if Paired(us[n..]) {
        forall i | n <= i < |us| ensures PairedAt(us, i) {
          assert PairedAt(us[n..], i - n);
        }
      }
    }
  }

  lemma StrandedUnpaired(us: seq<Unit>)
    requires us != [] && Stranded(us)
    ensures !Paired(us)
  {
    assert !PairedAt(us, 0);
  }

  // ----- the decoding pass -----

  lemma UnescapeStep(c: bytes, p: nat, end: nat, out: bytes)
    requires p < end < |c|
    ensures Unescape(c, p, end, out)
         == if c[p] != BACKSLASH then Unescape(c, p + 1, end, out + [c[p]])
            else if c[p + 1] == LETTER_U then
              match ReadLiteral(c, p, end)
              case None => BadEscape(p)
              case Some(l) => Unescape(c, p + l.length, end, out + l.utf8)
            else
              match SimpleEscape(c[p + 1])
              case None => BadEscape(p)
              case Some(b) => Unescape(c, p + 2, end, out + [b])
  {
    hide ReadLiteral, SimpleEscape;
  }

  lemma UnescapesNothing(c: bytes, end: nat, out: bytes)
    requires end < |c|
    ensures Unescape(c, end, end, out) == Text(out + [])
  {
    assert out + [] == out;
  }

  /** Where the second byte of a last backslash is the quote, nothing is left to decode. */
  lemma UnescapesHanging(c: bytes, p: nat, out: bytes)
    requires p + 1 < |c| && c[p] == BACKSLASH && c[p + 1] == QUOTE
    ensures Unescape(c, p, p + 1, out) == Text(out + [QUOTE])
  {}

  lemma UnicodeAt(c: bytes, p: nat, u: Unit)
    requires GoodUnit(u) && u.Unicode? && At(c, p, u.text)
    ensures p + 6 <= |c| && c[p] == BACKSLASH && c[p + 1] == LETTER_U && Hex4(c[p + 2..p + 6]) == u.code
  {
    AtBytes(c, p, u.text);
    assert c[p] == u.text[0] && c[p + 1] == u.text[1];
    assert c[p + 2..p + 6] == u.text[2..6];
  }

  /** The units that stand between `p` and the closing quote. */
  predicate Ahead(c: bytes, p: nat, end: nat, us: seq<Unit>) {
    && end < |c| && c[end] == QUOTE && GoodPieces(us)
    && At(c, p, RenderUnits(us)) && end == p + |RenderUnits(us)|
  }

  lemma AheadFirst(c: bytes, p: nat, end: nat, us: seq<Unit>)
    requires us != [] && Ahead(c, p, end, us)
    ensures At(c, p, RenderUnit(us[0])) && p < p + |RenderUnit(us[0])| <= end
    ensures Ahead(c, p + |RenderUnit(us[0])|, end, us[1..])
    ensures us[0].Hanging? ==> us[1..] == [] && p + 1 == end
  {
    hide RenderUnits;
    RenderOne(us);
    AtConcat(c, p, RenderUnit(us[0]), RenderUnits(us[1..]));
    assert GoodUnit(us[0]);
    GoodRest(us, 1);
    NoUnits();
  }

  lemma AheadCharacter(c: bytes, p: nat, end: nat, us: seq<Unit>)
    requires us != [] && Ahead(c, p, end, us)
    ensures p < p + |FirstText(us)| <= end
    ensures Ahead(c, p + |FirstText(us)|, end, us[Width(us)..])
  {
    hide Ahead, RenderUnit, High, Low;
    AheadFirst(c, p, end, us);
    if Width(us) == 2 {
      AheadFirst(c, p + |RenderUnit(us[0])|, end, us[1..]);
      assert us[1..][1..] == us[2..];
    }
  }

  /** Behind a high surrogate, the bytes that a partner would take hold none. */
  lemma NoPartner(c: bytes, p: nat, end: nat, us: seq<Unit>)
    requires Ahead(c, p, end, us) && (us != [] ==> !Low(us[0])) && p + 6 <= end
    ensures c[p] != BACKSLASH || c[p + 1] != LETTER_U || !IsLowSurrogate(Hex4(c[p + 2..p + 6]))
  {
    hide Hex4, RenderUnits, Unclosed;
    if us == [] {
      NoUnits();
    } else {
      hide Ahead;
      AheadFirst(c, p, end, us);
      AtBytes(c, p, RenderUnit(us[0]));
      GoodFirst(c, p, end, us);
      if us[0].Unicode? {
        UnicodeAt(c, p, us[0]);
      } else {
        assert c[p] == RenderUnit(us[0])[0];
        if us[0].Short? {
          assert c[p + 1] == RenderUnit(us[0])[1];
        }
      }
    }
  }

  lemma GoodFirst(c: bytes, p: nat, end: nat, us: seq<Unit>)
    requires us != [] && Ahead(c, p, end, us)
    ensures GoodPieces(us) && GoodUnit(us[0]) && (|us| > 1 ==> GoodUnit(us[1]))
  {}

  /** A `\u` escape or a pair of them is read unless it is stranded. */
  lemma LiteralRead(c: bytes, p: nat, end: nat, us: seq<Unit>)
    requires us != [] && us[0].Unicode? && Ahead(c, p, end, us)
    ensures GoodPieces(us) && p + 6 <= end < |c| && c[p] == BACKSLASH && c[p + 1] == LETTER_U
    ensures ReadLiteral(c, p, end)
         == if Stranded(us) then None else Some(Literal(FirstMeaning(us), |FirstText(us)|))
  {
    hide Hex4, RenderUnits, Utf8, Ahead, GoodPieces;
    QuoteAt(c, p, end, us);
    GoodFirst(c, p, end, us);
    AheadFirst(c, p, end, us);
    UnicodeAt(c, p, us[0]);
    if High(us[0]) && Width(us) == 1 {
      if p + 12 <= end {
        NoPartner(c, p + 6, end, us[1..]);
        assert c[p + 6 + 2..p + 6 + 6] == c[p + 8..p + 12];
      }
      assert ReadCodePoint(c, p, end) == None;
    } else if Width(us) == 2 {
      AheadFirst(c, p + 6, end, us[1..]);
      UnicodeAt(c, p + 6, us[1]);
    }
  }

  lemma PlainRead(c: bytes, p: nat, end: nat, us: seq<Unit>, out: bytes)
    requires us != [] && !us[0].Unicode? && Ahead(c, p, end, us)
    ensures GoodPieces(us) && |FirstText(us)| == |RenderUnit(us[0])| && Width(us) == 1
    ensures Unescape(c, p, end, out) == Unescape(c, p + |FirstText(us)|, end, out + FirstMeaning(us))
  {
    hide RenderUnits, Ahead, GoodPieces, Unescape;
    GoodFirst(c, p, end, us);
    AheadFirst(c, p, end, us);
    AtBytes(c, p, RenderUnit(us[0]));
    QuoteAt(c, p, end, us);
    UnescapeStep(c, p, end, out);
    assert c[p] == RenderUnit(us[0])[0];
    if us[0].Short? {
      assert c[p + 1] == RenderUnit(us[0])[1];
    } else if us[0].Hanging? {
      UnescapesHanging(c, p, out);
      UnescapesNothing(c, end, out + [QUOTE]);
      assert out + [QUOTE] + [] == out + [QUOTE];
    }
  }

  lemma QuoteAt(c: bytes, p: nat, end: nat, us: seq<Unit>)
    requires Ahead(c, p, end, us)
    ensures p <= end < |c| && c[end] == QUOTE && GoodPieces(us)
  {}

  /** The decoding pass takes one character, or ends at a stranded surrogate. */
  lemma CharacterRead(c: bytes, p: nat, end: nat, us: seq<Unit>, out: bytes)
    requires us != [] && Ahead(c, p, end, us)
    ensures GoodPieces(us) && p < end < |c|
    ensures if Stranded(us) then Unescape(c, p, end, out).BadEscape?
            else Unescape(c, p, end, out) == Unescape(c, p + |FirstText(us)|, end, out + FirstMeaning(us))
  {
    hide ReadLiteral, Ahead, Unescape, FirstText, FirstMeaning, GoodPieces;
    QuoteAt(c, p, end, us);
    AheadFirst(c, p, end, us);
    if us[0].Unicode? {
      LiteralRead(c, p, end, us);
      UnescapeStep(c, p, end, out);
    } else {
      PlainRead(c, p, end, us, out);
    }
  }

  /** It goes through exactly when every surrogate has its partner, and then yields what the units
      mean. */
  lemma {:induction false} Unescapes(c: bytes, p: nat, end: nat, us: seq<Unit>, out: bytes)
    requires Ahead(c, p, end, us)
    ensures GoodPieces(us)
    ensures if Paired(us) then Unescape(c, p, end, out) == Text(out + UnitsMeaning(us))
            else Unescape(c, p, end, out).BadEscape?
    decreases |us|
  {
    hide Unescape, RenderUnits, FirstText, FirstMeaning, GoodPieces, Paired, Stranded, Width, Ahead;
    QuoteAt(c, p, end, us);
    if us == [] {
      NothingAhead(c, p, end);
      NoUnits();
      UnescapesNothing(c, end, out);
    } else {
      CharacterRead(c, p, end, us, out);
      PairedRest(us);
      if !Stranded(us) {
        AheadCharacter(c, p, end, us);
        var rest, first := us[Width(us)..], FirstMeaning(us);
        Unescapes(c, p + |FirstText(us)|, end, rest, out + first);
        if Paired(us) {
          Regroup(out, first, UnitsMeaning(rest));
        }
      }
    }
  }

  lemma NothingAhead(c: bytes, p: nat, end: nat)
    requires Ahead(c, p, end, [])
    ensures p == end
  {}

  // ----- parse_string -----

  lemma StringParts(c: bytes, off: nat, us: seq<Unit>)
    requires GoodUnits(us) && At(c, off, RenderString(us))
    ensures off < |c| && c[off] == QUOTE
    ensures var end := off + 1 + |RenderUnits(us)|;
      && Ahead(c, off + 1, end, us) && Unclosed(c[off + 1..end]) && end + 1 == off + |RenderString(us)|
  {
    hide RenderUnits, Unclosed, GoodPieces;
    var text := RenderUnits(us);
    AtConcat(c, off, [QUOTE] + text, [QUOTE]);
    AtConcat(c, off, [QUOTE], text);
    AtByte(c, off, QUOTE);
    AtByte(c, off + 1 + |text|, QUOTE);
  }

  /** parse_string reads a string of the grammar if and only if every high surrogate escape in it is
      followed at once by a low one and no low one stands alone; and then as what it means. */
  lemma ReadsString(c: bytes, off: nat, depth: nat, us: seq<Unit>)
    requires GoodUnits(us) && At(c, off, RenderString(us))
    ensures off < |c|
    ensures if Paired(us) then ReadString(c, off, depth) == Parsed(StringMeaning(us), off + |RenderString(us)|)
            else ReadString(c, off, depth).Rejected?
  {
    hide RenderString, RenderUnits, Unescape, CloseQuote, UnitsMeaning, GoodPieces, Paired, CString, Ahead, Unclosed;
    StringParts(c, off, us);
    var end := off + 1 + |RenderUnits(us)|;
    QuoteAt(c, off + 1, end, us);
    ClosesAt(c, off + 1, end);
    Unescapes(c, off + 1, end, us, []);
    if Paired(us) {
      assert [] + UnitsMeaning(us) == UnitsMeaning(us);
    }
  }

  /** The C string that comes of it is the whole string if and only if no character is U+0000. */
  lemma WholeMeaning(us: seq<Unit>)
    requires GoodUnits(us)
    ensures StringMeaning(us) <= UnitsMeaning(us)
    ensures StringMeaning(us) == UnitsMeaning(us) <==> NulFree(UnitsMeaning(us))
  {
    if NulFree(UnitsMeaning(us)) {
      CStringOfNulFree(UnitsMeaning(us));
    }
  }

  // ----- and nothing else -----

  /** The units of the character that the decoding pass takes at `p`. */
  lemma SoundCharacter(c: bytes, p: nat, end: nat, out: bytes) returns (first: seq<Unit>)
    requires p < end < |c| && c[end] == QUOTE && Unescape(c, p, end, out).Text?
    ensures first != [] && GoodPieces(first) && !Stranded(first) && |first| == Width(first)
    ensures At(c, p, FirstText(first)) && p < p + |FirstText(first)| <= end
    ensures first[0].Hanging? ==> p + |FirstText(first)| == end
    ensures Unescape(c, p, end, out) == Unescape(c, p + |FirstText(first)|, end, out + FirstMeaning(first))
  {
    hide ReadLiteral, Unescape, Hex4, Utf8;
    UnescapeStep(c, p, end, out);
    if c[p] != BACKSLASH {
      first := [Plain(c[p])];
    } else if c[p + 1] == LETTER_U {
      first := SoundLiteral(c, p, end);
    } else if p + 1 == end {
      first := [Hanging];
      UnescapesHanging(c, p, out);
      UnescapesNothing(c, end, out + [QUOTE]);
      assert out + [QUOTE] + [] == out + [QUOTE];
    } else {
      first := [Short(c[p + 1])];
    }
  }

  lemma SoundLiteral(c: bytes, p: nat, end: nat) returns (first: seq<Unit>)
    requires p < end < |c| && c[p] == BACKSLASH && c[p + 1] == LETTER_U && ReadLiteral(c, p, end).Some?
    ensures first != [] && GoodPieces(first) && !Stranded(first) && |first| == Width(first) && first[0].Unicode?
    ensures At(c, p, FirstText(first)) && p + |FirstText(first)| <= end
    ensures ReadLiteral(c, p, end) == Some(Literal(FirstMeaning(first), |FirstText(first)|))
  {
    hide Hex4, Utf8;
    var a := c[p..p + 6];
    assert a[2..6] == c[p + 2..p + 6];
    first := [Unicode(a, Hex4(a[2..6]))];
    if ReadCodePoint(c, p, end).value.1 == 12 {
      var b := c[p + 6..p + 12];
      assert b[2..6] == c[p + 8..p + 12];
      first := first + [Unicode(b, Hex4(b[2..6]))];
      assert a + b == c[p..p + 12];
    }
  }

  lemma ConcatFirst(first: seq<Unit>, rest: seq<Unit>)
    requires first != [] && GoodPieces(first) && !Stranded(first) && |first| == Width(first) && GoodPieces(rest)
    requires first[0].Hanging? ==> rest == []
    ensures var us := first + rest;
      && GoodPieces(us) && Width(us) == Width(first) && us[Width(us)..] == rest && !Stranded(us)
      && FirstText(us) == FirstText(first) && FirstMeaning(us) == FirstMeaning(first)
  {
    hide Hex4, Utf8, RenderUnit;
    var us := first + rest;
    assert us[0] == first[0] && us[|first|..] == rest;
    forall i | 0 <= i < |us| ensures GoodUnit(us[i]) && (i < |us| - 1 ==> !us[i].Hanging?) {
      assert us[i] == if i < |first| then first[i] else rest[i - |first|];
    }
  }

  /** What a decoding pass that goes through has decoded. */
  lemma {:induction false} SoundUnescape(c: bytes, p: nat, end: nat, out: bytes) returns (us: seq<Unit>)
    requires p <= end < |c| && c[end] == QUOTE && Unescape(c, p, end, out).Text?
    ensures GoodPieces(us) && Paired(us) && At(c, p, RenderUnits(us)) && p + |RenderUnits(us)| == end
    decreases end - p
  {
    hide Unescape, GoodPieces, Stranded, Paired, RenderUnits, FirstText, FirstMeaning, Width, At;
    NoUnits();
    if p == end {
      us := [];
      AtNothing(c, p);
    } else {
      var first := SoundCharacter(c, p, end, out);
      var rest := SoundUnescape(c, p + |FirstText(first)|, end, out + FirstMeaning(first));
      us := first + rest;
      if first[0].Hanging? && rest != [] {
        RenderOne(rest);
        TextOf(rest);
      }
      ConcatFirst(first, rest);
      RenderFirst(us);
      PairedRest(us);
      AtConcat(c, p, FirstText(us), RenderUnits(rest));
    }
  }

  lemma TextOf(us: seq<Unit>)
    requires us != [] && GoodPieces(us)
    ensures RenderUnit(us[0]) != []
  {
    assert GoodUnit(us[0]);
  }

  /** Every string that is read is one of the grammar, with its surrogate escapes paired. */
  lemma SoundString(c: bytes, off: nat, depth: nat) returns (us: seq<Unit>)
    requires off < |c| && ReadString(c, off, depth).Parsed?
    ensures GoodUnits(us) && Paired(us) && At(c, off, RenderString(us))
    ensures ReadString(c, off, depth) == Parsed(StringMeaning(us), off + |RenderString(us)|)
  {
    hide Unescape, CloseQuote, RenderUnits, UnitsMeaning, GoodPieces, Paired, At, CString, Unclosed;
    var end := CloseQuote(c, off + 1).value;
    ClosesAt(c, off + 1, end);
    us := SoundUnescape(c, off + 1, end, []);
    AtIs(c, off + 1, RenderUnits(us));
    AtByte(c, off, QUOTE);
    AtByte(c, end, QUOTE);
    AtConcat(c, off, [QUOTE], RenderUnits(us));
    AtConcat(c, off, [QUOTE] + RenderUnits(us), [QUOTE]);
    ReadsString(c, off, depth, us);
  }

  lemma AtIs(c: bytes, p: nat, t: bytes)
    requires At(c, p, t)
    ensures p + |t| <= |c| && c[p..p + |t|] == t
  {}
}
