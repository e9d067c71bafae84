/** The text rules of the bridge: Java's idea of white space, control characters and length. A text
    is a sequence of code points; Java counts those above U+FFFF twice. */
module JavaText {
  /** `Character.isWhitespace` */
  predicate IsWhitespace(c: char) {
    || '\t' <= c <= '\r' || '\U{1C}' <= c <= ' ' || c == '\U{1680}'
    || '\U{2000}' <= c <= '\U{2006}' || '\U{2008}' <= c <= '\U{200A}'
    || c == '\U{2028}' || c == '\U{2029}' || c == '\U{205F}' || c == '\U{3000}'
  }

  /** `str.isspace` of Python: Java's white space, the no-break spaces and NEL. */
  predicate IsPythonSpace(c: char) {
    IsWhitespace(c) || c == '\U{85}' || c == '\U{A0}' || c == '\U{2007}' || c == '\U{202F}'
  }

  predicate IsControl(c: char) {
    c < ' ' || c == '\U{7F}'
  }

  predicate IsBlank(s: string) {
    forall i :: 0 <= i < |s| ==> IsWhitespace(s[i])
  }

  predicate HasControl(s: string) {
    exists i :: 0 <= i < |s| && IsControl(s[i])
  }

  /** `String.strip` with the white space of the caller's language. */
  function StripWith(s: string, space: char -> bool): string {
    if s == [] then s
    else if space(s[0]) then StripWith(s[1..], space)
    else if space(s[|s| - 1]) then StripWith(s[..|s| - 1], space)
    else s
  }

  function Strip(s: string): string {
    StripWith(s, IsWhitespace)
  }

  /** `String.length` */
  function Length(s: string): nat {
    if s == [] then 0 else (if s[0] < '\U{10000}' then 1 else 2) + Length(s[1..])
  }

  /** The UTF-16 units of a text: a code point above U+FFFF becomes a surrogate pair. */
  function Units(s: string): (units: seq<nat>)
    ensures |units| == Length(s)
    ensures forall i :: 0 <= i < |units| ==> units[i] < 0x1_0000
  {
    if s == [] then []
    else
      var c := s[0] as int;
      (if c < 0x1_0000 then [c] else [0xD800 + (c - 0x1_0000) / 0x400, 0xDC00 + (c - 0x1_0000) % 0x400]) + Units(s[1..])
  }

  /** A surrogate pair gives back its code point. */
  lemma PairIsCodePoint(c: char)
    ensures c as int < 0x1_0000 ==> Units([c]) == [c as int]
    ensures c as int >= 0x1_0000 ==>
              |Units([c])| == 2 && 0xD800 <= Units([c])[0] < 0xDC00 <= Units([c])[1] < 0xE000
              && c as int == 0x1_0000 + (Units([c])[0] - 0xD800) * 0x400 + (Units([c])[1] - 0xDC00)
  {
    assert [c][1..] == [];
  }

  lemma {:induction false} UnitsConcat(s: string, t: string)
    ensures Units(s + t) == Units(s) + Units(t)
  {
    if s == [] {
      assert s + t == t;
    } else {
      assert (s + t)[0] == s[0] && (s + t)[1..] == s[1..] + t;
      UnitsConcat(s[1..], t);
    }
  }

  /** Java's length is between the number of code points and twice that number. */
  lemma {:induction false} LengthBounds(s: string)
    ensures |s| <= Length(s) <= 2 * |s|
    ensures (forall i :: 0 <= i < |s| ==> s[i] < '\U{10000}') ==> Length(s) == |s|
    ensures (forall i :: 0 <= i < |s| ==> s[i] >= '\U{10000}') ==> Length(s) == 2 * |s|
  {
    if s != [] {
      LengthBounds(s[1..]);
    }
  }

  lemma {:induction false} StripShrinks(s: string, space: char -> bool)
    ensures |StripWith(s, space)| <= |s|
    ensures StripWith(s, space) == s <==> s == [] || (!space(s[0]) && !space(s[|s| - 1]))
  {
    if s != [] {
      if space(s[0]) {
        StripShrinks(s[1..], space);
      } else if space(s[|s| - 1]) {
        StripShrinks(s[..|s| - 1], space);
      }
    }
  }

  /** Stripping takes off exactly the white space at both ends. */
  lemma {:induction false} StripTakesEnds(s: string, space: char -> bool) returns (i: nat)
    ensures var v := StripWith(s, space);
            && i + |v| <= |s| && v == s[i..i + |v|]
            && (forall k :: 0 <= k < i || i + |v| <= k < |s| ==> space(s[k]))
            && (v != [] ==> !space(v[0]) && !space(v[|v| - 1]))
  {
    i := 0;
    if s != [] {
      if space(s[0]) {
        var j := StripTakesEnds(s[1..], space);
        i := j + 1;
        assert forall k :: 1 <= k < |s| ==> s[k] == s[1..][k - 1];
      } else if space(s[|s| - 1]) {
        i := StripTakesEnds(s[..|s| - 1], space);
      }
    }
  }

  /** The code points that Java counts as white space, those that only Python does, and the controls. */
  lemma CharacterTables(c: char)
    ensures IsWhitespace(c) <==>
              c as int in {9, 10, 11, 12, 13, 28, 29, 30, 31, 32, 0x1680, 0x2000, 0x2001, 0x2002, 0x2003, 0x2004, 0x2005, 0x2006,
                           0x2008, 0x2009, 0x200A, 0x2028, 0x2029, 0x205F, 0x3000}
    ensures IsPythonSpace(c) <==> IsWhitespace(c) || c as int in {0x85, 0xA0, 0x2007, 0x202F}
    ensures IsControl(c) <==> c as int < 0x20 || c as int == 0x7F
  {
  }

  /** What Python leaves alone, Java leaves alone. */
  lemma StrippedByPython(s: string)
    requires StripWith(s, IsPythonSpace) == s
    ensures Strip(s) == s
  {
    StripShrinks(s, IsPythonSpace);
    StripShrinks(s, IsWhitespace);
  }
}
