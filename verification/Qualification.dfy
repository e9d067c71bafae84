/** The scanner that finds the fields a qualification refers to: field names stand between single
    quotes, string literals between double quotes, and a delimiter inside either is doubled. */
module Qualification {
  import opened Common

  datatype Failure = Unterminated | EmptyField

  predicate IsQuote(c: char) {
    c == '\'' || c == '"'
  }

  // ----------------------------------------------------------- specification

  /** The value and the rest of a text whose opening delimiter has just been passed. */
  function ReadToken(s: string, d: char): Option<(string, string)> {
    if s == [] then None
    else if s[0] != d then PrependChar(s[0], ReadToken(s[1..], d))
    else if |s| > 1 && s[1] == d then PrependChar(d, ReadToken(s[2..], d))
    else Some(([], s[1..]))
  }

  function PrependChar(c: char, r: Option<(string, string)>): Option<(string, string)> {
    if r.None? then None else Some(([c] + r.value.0, r.value.1))
  }

  lemma {:induction false} ReadShrinks(s: string, d: char)
    ensures ReadToken(s, d).Some? ==>
              |ReadToken(s, d).value.1| < |s| && !StartsWith(ReadToken(s, d).value.1, d)
  {
    if s == [] {
    } else if s[0] != d {
      ReadShrinks(s[1..], d);
    } else if |s| > 1 && s[1] == d {
      ReadShrinks(s[2..], d);
    }
  }

  predicate StartsWith(s: string, c: char) {
    s != [] && s[0] == c
  }

  function Scan(s: string): Result<seq<string>, Failure>
    decreases |s|
  {
    if s == [] then Ok([])
    else if !IsQuote(s[0]) then Scan(s[1..])
    else
      ReadShrinks(s[1..], s[0]);
      match ReadToken(s[1..], s[0])
      case None => Err(Unterminated)
      case Some((value, rest)) =>
        if s[0] == '"' then Scan(rest)
        else if value == [] then Err(EmptyField)
        else Prepend([value], Scan(rest))
  }

  function Prepend(fields: seq<string>, r: Result<seq<string>, Failure>): Result<seq<string>, Failure> {
    if r.Err? then r else Ok(fields + r.value)
  }

  lemma PrependTwice(a: seq<string>, b: seq<string>, r: Result<seq<string>, Failure>)
    ensures Prepend([], r) == r
    ensures Prepend(a, Prepend(b, r)) == Prepend(a + b, r)
  {
    if r.Ok? {
      assert [] + r.value == r.value;
      assert a + (b + r.value) == a + b + r.value;
    }
  }

  // ----------------------------------------------------------------- methods

  function PrependAll(value: string, r: Option<(string, string)>): Option<(string, string)> {
    if r.None? then None else Some((value + r.value.0, r.value.1))
  }

  lemma PrependCharAtEnd(value: string, c: char, r: Option<(string, string)>)
    ensures PrependAll([], r) == r
    ensures PrependAll(value, PrependChar(c, r)) == PrependAll(value + [c], r)
  {
    if r.Some? {
      assert [] + r.value.0 == r.value.0;
      assert value + ([c] + r.value.0) == value + [c] + r.value.0;
    }
  }

  /** `_read_quoted_token` */
  method ReadQuotedToken(q: string, start: nat, delimiter: char) returns (r: Option<(string, nat)>)
    requires start < |q|
    ensures r.None? <==> ReadToken(q[start + 1..], delimiter).None?
    ensures r.Some? ==> start < r.value.1 <= |q|
                        && ReadToken(q[start + 1..], delimiter) == Some((r.value.0, q[r.value.1..]))
  {
    var value, index := [], start + 1;
    ghost var all := ReadToken(q[start + 1..], delimiter);
    PrependCharAtEnd([], delimiter, all);
    while index < |q|
      invariant start < index <= |q|
      invariant all == PrependAll(value, ReadToken(q[index..], delimiter))
    {
      var character := q[index];
      assert q[index..][1..] == q[index + 1..];
      if character != delimiter {
        PrependCharAtEnd(value, character, ReadToken(q[index + 1..], delimiter));
        value := value + [character];
        index := index + 1;
        continue;
      }
      if index + 1 < |q| && q[index + 1] == delimiter {
        assert q[index..][2..] == q[index + 2..];
        PrependCharAtEnd(value, delimiter, ReadToken(q[index + 2..], delimiter));
        value := value + [delimiter];
        index := index + 2;
        continue;
      }
      assert all == Some((value + [], q[index + 1..]));
      assert value + [] == value;
      return Some((value, index + 1));
    }
    return None;
  }

  /** `referenced_fields` */
  method ReferencedFields(q: string) returns (r: Result<seq<string>, Failure>)
    ensures r == Scan(q)
  {
    var fields: seq<string>, index := [], 0;
    assert q[0..] == q;
    PrependTwice([], [], Scan(q));
    while index < |q|
      invariant 0 <= index <= |q|
      invariant Scan(q) == Prepend(fields, Scan(q[index..]))
    {
      var delimiter := q[index];
      assert q[index..][1..] == q[index + 1..];
      if !IsQuote(delimiter) {
        index := index + 1;
        continue;
      }
      var token := ReadQuotedToken(q, index, delimiter);
      if token.None? {
        return Err(Unterminated);
      }
      var (value, next) := token.value;
      index := next;
      if delimiter == '\'' {
        if value == [] {
          return Err(EmptyField);
        }
        PrependTwice(fields, [value], Scan(q[next..]));
        fields := fields + [value];
      }
    }
    assert fields + [] == fields;
    return Ok(fields);
  }

  // ---------------------------------------------------------------- printing

  datatype Token = Plain(text: string) | FieldRef(name: string) | Literal(text: string)

  function Doubled(s: string, d: char): string {
    if s == [] then [] else (if s[0] == d then [d, d] else [s[0]]) + Doubled(s[1..], d)
  }

  function PrintToken(t: Token): string {
    match t
    case Plain(text) => text
    case FieldRef(name) => ['\''] + Doubled(name, '\'') + ['\'']
    case Literal(text) => ['"'] + Doubled(text, '"') + ['"']
  }

  function Print(ts: seq<Token>): string {
    if ts == [] then [] else PrintToken(ts[0]) + Print(ts[1..])
  }

  function Fields(ts: seq<Token>): seq<string> {
    if ts == [] then [] else (if ts[0].FieldRef? then [ts[0].name] else []) + Fields(ts[1..])
  }

  predicate GoodToken(t: Token) {
    match t
    case Plain(text) => text != [] && forall i :: 0 <= i < |text| ==> !IsQuote(text[i])
    case FieldRef(name) => name != []
    case Literal(_) => true
  }

  /** `t` must not be followed by a text that begins with its own delimiter. */
  predicate MayPrecede(t: Token, rest: string) {
    && (t.FieldRef? ==> !StartsWith(rest, '\''))
    && (t.Literal? ==> !StartsWith(rest, '"'))
  }

  /** Well-formed tokens, no two quoted ones of the same kind next to each other, also not across the
      border to `rest`. */
  predicate Normal(ts: seq<Token>, rest: string) {
    ts == [] || (GoodToken(ts[0]) && MayPrecede(ts[0], Print(ts[1..]) + rest) && Normal(ts[1..], rest))
  }

  lemma {:induction false} ReadDoubled(v: string, d: char, rest: string)
    ensures !StartsWith(rest, d) ==> ReadToken(Doubled(v, d) + [d] + rest, d) == Some((v, rest))
    ensures ReadToken(Doubled(v, d), d) == None
  {
    var s := Doubled(v, d) + [d] + rest;
    if v == [] {
      assert s == [d] + rest;
      assert s[1..] == rest;
    } else {
      ReadDoubled(v[1..], d, rest);
      var tail := Doubled(v[1..], d) + [d] + rest;
      assert [v[0]] + v[1..] == v;
      if v[0] == d {
        assert s == [d, d] + tail;
        assert s[2..] == tail;
        assert Doubled(v, d)[2..] == Doubled(v[1..], d);
      } else {
        assert s == [v[0]] + tail;
        assert s[1..] == tail;
        assert Doubled(v, d)[1..] == Doubled(v[1..], d);
      }
    }
  }

  lemma {:induction false} ScanPlain(text: string, rest: string)
    requires forall i :: 0 <= i < |text| ==> !IsQuote(text[i])
    ensures Scan(text + rest) == Scan(rest)
  {
    if text == [] {
      assert text + rest == rest;
    } else {
      assert (text + rest)[1..] == text[1..] + rest;
      ScanPlain(text[1..], rest);
    }
  }

  lemma ScanQuoted(d: char, value: string, rest: string)
    requires IsQuote(d) && !StartsWith(rest, d)
    ensures Scan([d] + Doubled(value, d) + [d] + rest)
            == if d == '"' then Scan(rest) else if value == [] then Err(EmptyField) else Prepend([value], Scan(rest))
  {
    ReadDoubled(value, d, rest);
    assert ([d] + Doubled(value, d) + [d] + rest)[1..] == Doubled(value, d) + [d] + rest;
  }

  lemma ScanToken(t: Token, rest: string)
    requires GoodToken(t) && MayPrecede(t, rest)
    ensures Scan(PrintToken(t) + rest) == Prepend(if t.FieldRef? then [t.name] else [], Scan(rest))
  {
    hide Scan, Doubled;
    PrependTwice([], [], Scan(rest));
    match t
    case Plain(text) => ScanPlain(text, rest);
    case FieldRef(name) => ScanQuoted('\'', name, rest);
    case Literal(text) => ScanQuoted('"', text, rest);
  }

  /** Scanning printed tokens, whatever follows them, yields their fields first. */
  lemma {:induction false} ScanPrinted(ts: seq<Token>, rest: string)
    requires Normal(ts, rest)
    ensures Scan(Print(ts) + rest) == Prepend(Fields(ts), Scan(rest))
  {
    PrependTwice([], [], Scan(rest));
    if ts == [] {
      assert Print(ts) + rest == rest;
    } else {
      assert Print(ts) + rest == PrintToken(ts[0]) + (Print(ts[1..]) + rest);
      ScanToken(ts[0], Print(ts[1..]) + rest);
      ScanPrinted(ts[1..], rest);
      PrependTwice(if ts[0].FieldRef? then [ts[0].name] else [], Fields(ts[1..]), Scan(rest));
    }
  }

  // ------------------------------------------------------------ decomposition

  /** What is left of a text after its last complete token. */
  datatype Tail = Done | Open(delimiter: char, value: string) | Hole(rest: string)

  function PrintTail(t: Tail): string {
    match t
    case Done => []
    case Open(d, value) => [d] + Doubled(value, d)
    case Hole(rest) => "''" + rest
  }

  predicate GoodTail(t: Tail) {
    && (t.Open? ==> IsQuote(t.delimiter))
    && (t.Hole? ==> !StartsWith(t.rest, '\''))
  }

  function TailOutcome(t: Tail): Result<seq<string>, Failure> {
    match t
    case Done => Ok([])
    case Open(_, _) => Err(Unterminated)
    case Hole(_) => Err(EmptyField)
  }

  lemma ScanTail(t: Tail)
    requires GoodTail(t)
    ensures Scan(PrintTail(t)) == TailOutcome(t)
  {
    match t
    case Done =>
    case Open(d, value) =>
      ReadDoubled(value, d, []);
      assert PrintTail(t)[1..] == Doubled(value, d);
    case Hole(rest) =>
      ScanQuoted('\'', [], rest);
      assert PrintTail(t) == ['\''] + Doubled([], '\'') + ['\''] + rest;
  }

  /** A value read back is what was doubled; an unterminated text is a doubled value. */
  lemma {:induction false} ReadIsPrinted(s: string, d: char)
    ensures var r := ReadToken(s, d);
            if r.Some? then s == Doubled(r.value.0, d) + [d] + r.value.1
            else exists v :: s == Doubled(v, d)
  {
    if s == [] {
      assert s == Doubled([], d);
    } else if s[0] != d || (|s| > 1 && s[1] == d) {
      var k := if s[0] != d then 1 else 2;
      ReadIsPrinted(s[k..], d);
      assert s == s[..k] + s[k..];
      var r := ReadToken(s[k..], d);
      if r.Some? {
        DoubledCons(s[0], r.value.0, d);
      } else {
        var v :| s[k..] == Doubled(v, d);
        DoubledCons(s[0], v, d);
        assert s == Doubled([s[0]] + v, d);
      }
    } else {
      assert s == [d] + s[1..];
    }
  }

  lemma DoubledCons(c: char, v: string, d: char)
    ensures Doubled([c] + v, d) == (if c == d then [d, d] else [c]) + Doubled(v, d)
  {
    assert ([c] + v)[1..] == v;
  }

  ghost predicate Decomposes(s: string, ts: seq<Token>, t: Tail) {
    Normal(ts, PrintTail(t)) && GoodTail(t) && s == Print(ts) + PrintTail(t)
  }

  lemma DecomposesCons(token: Token, s: string, ts: seq<Token>, t: Tail)
    requires GoodToken(token) && MayPrecede(token, s) && Decomposes(s, ts, t)
    ensures Decomposes(PrintToken(token) + s, [token] + ts, t)
  {
    hide PrintToken, PrintTail, GoodTail, GoodToken, MayPrecede;
    var all, tail := [token] + ts, PrintTail(t);
    assert all[0] == token && all[1..] == ts;
    assert Print(all) == PrintToken(token) + Print(ts);
    assert Print(all) + tail == PrintToken(token) + (Print(ts) + tail);
  }

  lemma TokenBeforeText(token: Token, s: string)
    requires GoodToken(token) && MayPrecede(token, s)
    requires exists ts, t :: Decomposes(s, ts, t)
    ensures exists ts, t :: Decomposes(PrintToken(token) + s, ts, t)
  {
    hide Decomposes;
    var ts, t :| Decomposes(s, ts, t);
    DecomposesCons(token, s, ts, t);
  }

  /** Every text is a normal list of tokens followed by nothing, an open token or an empty field. */
  lemma {:induction false} EveryTextDecomposes(s: string)
    ensures exists ts, t :: Decomposes(s, ts, t)
    decreases |s|
  {
    if s == [] {
      assert Decomposes(s, [], Done);
    } else if !IsQuote(s[0]) {
      EveryTextDecomposes(s[1..]);
      TokenBeforeText(Plain([s[0]]), s[1..]);
      assert s == PrintToken(Plain([s[0]])) + s[1..];
    } else {
      QuotedTextDecomposes(s);
    }
  }

  lemma {:induction false} QuotedTextDecomposes(s: string)
    requires s != [] && IsQuote(s[0])
    ensures exists ts, t :: Decomposes(s, ts, t)
    decreases |s|, 0
  {
    var d := s[0];
    ReadIsPrinted(s[1..], d);
    ReadShrinks(s[1..], d);
    var r := ReadToken(s[1..], d);
    if r.None? {
      var v :| s[1..] == Doubled(v, d);
      assert s == [d] + Doubled(v, d);
      assert Decomposes(s, [], Open(d, v));
    } else {
      var (value, rest) := r.value;
      assert s == [d] + Doubled(value, d) + [d] + rest;
      if d == '\'' && value == [] {
        assert s == "''" + rest;
        assert Decomposes(s, [], Hole(rest));
      } else {
        EveryTextDecomposes(rest);
        var token := if d == '\'' then FieldRef(value) else Literal(value);
        assert s == PrintToken(token) + rest;
        TokenBeforeText(token, rest);
      }
    }
  }

  lemma DecompositionDecides(s: string, ts: seq<Token>, t: Tail)
    requires Decomposes(s, ts, t)
    ensures Scan(s) == Prepend(Fields(ts), TailOutcome(t))
  {
    ScanPrinted(ts, PrintTail(t));
    ScanTail(t);
  }

  // ------------------------------------------------------------- main theorems

  /** Printing any normal list of tokens and scanning the text gives back exactly its fields. */
  lemma PrintThenScan(ts: seq<Token>)
    requires Normal(ts, [])
    ensures Scan(Print(ts)) == Ok(Fields(ts))
  {
    assert Print(ts) + PrintTail(Done) == Print(ts);
    DecompositionDecides(Print(ts), ts, Done);
    assert Fields(ts) + [] == Fields(ts);
  }

  /** The scan accepts a text with given fields exactly when the text is the printing of a normal
      list of tokens with those fields. */
  lemma AcceptedExactlyWhenPrinted(s: string, fields: seq<string>)
    ensures Scan(s) == Ok(fields) <==> exists ts :: Normal(ts, []) && Print(ts) == s && Fields(ts) == fields
  {
    if ts :| Normal(ts, []) && Print(ts) == s && Fields(ts) == fields {
      PrintThenScan(ts);
    }
    if Scan(s) == Ok(fields) {
      EveryTextDecomposes(s);
      var ts, t :| Decomposes(s, ts, t);
      DecompositionDecides(s, ts, t);
      assert t == Done && Fields(ts) + [] == Fields(ts);
      assert Print(ts) + PrintTail(Done) == Print(ts);
    }
  }

  /** Each refusal has one cause: an opened token that never closes, or an empty field name, found
      after a normal list of complete tokens. */
  lemma RefusedExactlyWhenBroken(s: string, failure: Failure)
    ensures Scan(s) == Err(failure)
            <==> exists ts, t :: Decomposes(s, ts, t) && (if failure == EmptyField then t.Hole? else t.Open?)
  {
    if ts, t :| Decomposes(s, ts, t) && (if failure == EmptyField then t.Hole? else t.Open?) {
      DecompositionDecides(s, ts, t);
    }
    if Scan(s) == Err(failure) {
      EveryTextDecomposes(s);
      var ts, t :| Decomposes(s, ts, t);
      DecompositionDecides(s, ts, t);
    }
  }
}
