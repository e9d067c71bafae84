/** Write values on their way from the gateway, which encodes them as flat texts, to the bridge, which
    looks the fields up by name and parses the texts by the type of each field. */
module WriteValues {
  import opened Common
  import Decimal
  import JavaText

  const MAX_FIELDS := 32
  const MAX_NAME := 255
  const MAX_VALUE := 8192
  const MAX_DIGITS := 4300

  /** What stays abstract: Python's `casefold` and `repr` of floats, Java's `toLowerCase` and its
      reading of doubles and decimals. */
  datatype Platform = Platform(
    fold: string -> string, lower: string -> string, repr: real -> string, double: string -> Option<real>,
    decimal: string -> Option<real>)

  /** Texts that Java's lower case does not tell apart, Python's case folding does not either. */
  ghost predicate FoldIsCoarser(p: Platform) {
    forall a, b :: p.lower(a) == p.lower(b) ==> p.fold(a) == p.fold(b)
  }

  // ---------------------------------------------------------------- the gateway

  /** `_is_safe_text` */
  predicate SafeText(s: string, maximum: nat) {
    && 1 <= |JavaText.StripWith(s, JavaText.IsPythonSpace)| <= maximum
    && s == JavaText.StripWith(s, JavaText.IsPythonSpace)
    && !JavaText.HasControl(s)
  }

  predicate GoodField(field: string) {
    SafeText(field, MAX_NAME) && ',' !in field
  }

  /** Strings are bounded by the gateway, and integers by Python, whose `str` raises above 4300 digits. */
  predicate GoodValue(v: Scalar) {
    && (v.Str? ==> |v.text| <= MAX_VALUE)
    && (v.Int? ==> |Decimal.Digits(if v.number < 0 then -v.number else v.number)| <= MAX_DIGITS)
  }

  function TypeName(v: Scalar): string {
    match v
    case Bool(_) => "boolean"
    case Int(_) => "integer"
    case Num(_) => "number"
    case Str(_) => "string"
  }

  function ValueText(p: Platform, v: Scalar): string {
    match v
    case Bool(b) => if b then "true" else "false"
    case Int(n) => Decimal.Print(n)
    case Num(x) => p.repr(x)
    case Str(s) => s
  }

  function Key(prefix: string, i: nat): string {
    prefix + Decimal.Digits(i)
  }

  /** What the gateway accepts for sending. */
  ghost predicate Encodable(p: Platform, vs: Dict) {
    && 1 <= |vs| <= MAX_FIELDS
    && (forall i :: 0 <= i < |vs| ==> GoodField(vs[i].0) && GoodValue(vs[i].1))
    && (forall i, j :: 0 <= i < j < |vs| ==> p.fold(vs[i].0) != p.fold(vs[j].0))
  }

  /** What is sent, in full: 1 to 32 values under names told apart by case folding; a name of 1 to 255 characters
      without white space at its ends, control character or comma; a string of at most 8192 characters; an
      integer of at most 4300 digits. */
  lemma EncodableExactly(p: Platform, vs: Dict)
    ensures Encodable(p, vs) <==>
              && 1 <= |vs| <= 32
              && (forall i :: 0 <= i < |vs| ==> NameSent(vs[i].0))
              && (forall i :: 0 <= i < |vs| && vs[i].1.Str? ==> |vs[i].1.text| <= 8192)
              && (forall i :: 0 <= i < |vs| && vs[i].1.Int? ==> -Decimal.Power10(4300) < vs[i].1.number < Decimal.Power10(4300))
              && forall i, j :: 0 <= i < j < |vs| ==> p.fold(vs[i].0) != p.fold(vs[j].0)
  {
    hide SafeText, GoodField, NameSent, Decimal.Digits, Decimal.Power10;
    forall i | 0 <= i < |vs|
      ensures GoodField(vs[i].0) <==> NameSent(vs[i].0)
      ensures vs[i].1.Int? ==> (GoodValue(vs[i].1) <==> -Decimal.Power10(4300) < vs[i].1.number < Decimal.Power10(4300))
    {
      NamesSentAreGood(vs[i].0);
      if vs[i].1.Int? {
        Decimal.DigitCount(if vs[i].1.number < 0 then -vs[i].1.number else vs[i].1.number, 4300);
      }
    }
  }

  ghost predicate NameSent(s: string) {
    && 1 <= |s| <= 255 && !JavaText.IsPythonSpace(s[0]) && !JavaText.IsPythonSpace(s[|s| - 1])
    && forall k :: 0 <= k < |s| ==> s[k] != ',' && !JavaText.IsControl(s[k])
  }

  lemma NamesSentAreGood(s: string)
    ensures GoodField(s) <==> NameSent(s)
  {
    hide JavaText.IsPythonSpace, JavaText.StripWith;
    JavaText.StripShrinks(s, JavaText.IsPythonSpace);
  }

  function AddEntry(p: Platform, data: map<string, string>, i: nat, e: (string, Scalar)): map<string, string> {
    data[Key("field_", i) := e.0][Key("value_type_", i) := TypeName(e.1)][Key("value_", i) := ValueText(p, e.1)]
  }

  /** The texts for the first `n` values. */
  function Encoded(p: Platform, vs: Dict, n: nat): map<string, string>
    requires n <= |vs|
  {
    if n == 0 then map["value_count" := Decimal.Digits(|vs|)]
    else AddEntry(p, Encoded(p, vs, n - 1), n - 1, vs[n - 1])
  }

  /** `_encode_write_values` */
  method EncodeWriteValues(p: Platform, vs: Dict) returns (r: Option<map<string, string>>)
    ensures r.Some? <==> Encodable(p, vs)
    ensures r.Some? ==> r.value == Encoded(p, vs, |vs|)
  {
    hide Key, TypeName, ValueText, SafeText;
    if !(1 <= |vs| <= MAX_FIELDS) {
      return None;
    }
    var data := map["value_count" := Decimal.Digits(|vs|)];
    var folded: set<string> := {};
    var index := 0;
    while index < |vs|
      invariant 0 <= index <= |vs|
      invariant data == Encoded(p, vs, index)
      invariant forall c :: c in folded <==> exists k :: 0 <= k < index && c == p.fold(vs[k].0)
      invariant forall i :: 0 <= i < index ==> GoodField(vs[i].0) && GoodValue(vs[i].1)
      invariant forall i, j :: 0 <= i < j < index ==> p.fold(vs[i].0) != p.fold(vs[j].0)
    {
      var (field, value) := vs[index];
      var canonical := p.fold(field);
      if !SafeText(field, MAX_NAME) || ',' in field || canonical in folded {
        return None;
      }
      if !GoodValue(value) {
        return None;
      }
      folded := folded + {canonical};
      data := data[Key("field_", index) := field];
      data := data[Key("value_type_", index) := TypeName(value)];
      data := data[Key("value_", index) := ValueText(p, value)];
      index := index + 1;
    }
    return Some(data);
  }

  // ----------------------------------------------------------------- the bridge

  datatype DataType = CHAR | DIARY | INTEGER | ENUM | BITMASK | REAL | DECIMAL | ULONG | TIME | DATE | TIME_OF_DAY | OTHER

  datatype Field = Field(id: int, name: string, dataType: DataType)

  datatype Value =
    | PlainText(text: string) | DiaryText(text: string) | Number(number: int) | Double(amount: real) | Exact(amount: real)
    | Unsigned(number: int) | Moment(number: int) | Day(number: int) | TimeOfDay(number: int)

  datatype Error = BadRequest | AmbiguousField

  const MIN_INT := -0x8000_0000
  const MAX_INT := 0x7fff_ffff
  const MAX_LONG := 0x7fff_ffff_ffff_ffff

  function Canonical(p: Platform, f: Field): string {
    p.lower(JavaText.Strip(f.name))
  }

  /** The fields that bear a name. */
  function Bearers(p: Platform, fields: seq<Field>, canonical: string): seq<Field> {
    if fields == [] then []
    else
      Bearers(p, fields[..|fields| - 1], canonical)
      + if Canonical(p, fields[|fields| - 1]) == canonical then [fields[|fields| - 1]] else []
  }

  /** `indexFields`: a name is mapped to its only bearer, and to null when it has several. */
  method IndexFields(p: Platform, fields: seq<Field>) returns (byName: map<string, Option<Field>>)
    ensures forall c :: c in byName <==> Bearers(p, fields, c) != []
    ensures forall c :: c in byName ==> byName[c] == OnlyOne(Bearers(p, fields, c))
  {
    byName := map[];
    var i := 0;
    while i < |fields|
      invariant 0 <= i <= |fields|
      invariant forall c :: c in byName <==> Bearers(p, fields[..i], c) != []
      invariant forall c :: c in byName ==> byName[c] == OnlyOne(Bearers(p, fields[..i], c))
    {
      var field := fields[i];
      assert fields[..i + 1][..i] == fields[..i];
      var canonical := Canonical(p, field);
      if canonical in byName {
        byName := byName[canonical := None];
      } else {
        byName := byName[canonical := Some(field)];
      }
      i := i + 1;
    }
    assert fields[..i] == fields;
  }

  function OnlyOne(fs: seq<Field>): Option<Field> {
    if |fs| == 1 then Some(fs[0]) else None
  }

  /** `resolveField` */
  function Resolve(p: Platform, fields: seq<Field>, canonical: string): Result<Field, Error> {
    var bearers := Bearers(p, fields, canonical);
    if bearers == [] then Err(BadRequest)
    else if |bearers| > 1 then Err(AmbiguousField)
    else Ok(bearers[0])
  }

  /** The field of a name: the only one that bears it; none and several are told apart. */
  lemma {:induction false} BearersOfName(p: Platform, fields: seq<Field>, canonical: string)
    ensures Bearers(p, fields, canonical) == [] <==> forall i :: 0 <= i < |fields| ==> Canonical(p, fields[i]) != canonical
    ensures |Bearers(p, fields, canonical)| > 1 <==>
              exists i, j :: 0 <= i < j < |fields| && Canonical(p, fields[i]) == canonical && Canonical(p, fields[j]) == canonical
    ensures forall i :: 0 <= i < |fields| && Canonical(p, fields[i]) == canonical ==> fields[i] in Bearers(p, fields, canonical)
  {
    hide Canonical;
    if fields != [] {
      var front, last := fields[..|fields| - 1], fields[|fields| - 1];
      BearersOfName(p, front, canonical);
      var before := Bearers(p, front, canonical);
      assert forall i :: 0 <= i < |front| ==> fields[i] == front[i];
      if before != [] {
        var i :| 0 <= i < |front| && Canonical(p, front[i]) == canonical;
      }
    }
  }

  lemma ResolveExactly(p: Platform, fields: seq<Field>, canonical: string)
    ensures var r := Resolve(p, fields, canonical);
            && (r == Err(BadRequest) <==> forall i :: 0 <= i < |fields| ==> Canonical(p, fields[i]) != canonical)
            && (r == Err(AmbiguousField) <==>
                  exists i, j :: 0 <= i < j < |fields| && Canonical(p, fields[i]) == canonical && Canonical(p, fields[j]) == canonical)
            && (forall i :: 0 <= i < |fields| && Canonical(p, fields[i]) == canonical && r != Err(AmbiguousField) ==> r == Ok(fields[i]))
            && (r.Ok? <==> OnlyOne(Bearers(p, fields, canonical)).Some?)
            && (r.Ok? ==> OnlyOne(Bearers(p, fields, canonical)) == Some(r.value))
  {
    hide Canonical, Bearers;
    BearersOfName(p, fields, canonical);
  }

  /** `validateText` */
  function ValidText(s: string, maximum: nat): Option<string> {
    var stripped := JavaText.Strip(s);
    if stripped == [] || JavaText.Length(stripped) > maximum || JavaText.HasControl(stripped) then None else Some(stripped)
  }

  function RequiredText(input: map<string, string>, key: string, maximum: nat): Option<string> {
    if key !in input then None else ValidText(input[key], maximum)
  }

  function RequiredRaw(input: map<string, string>, key: string, maximum: nat): Option<string> {
    if key !in input || JavaText.Length(input[key]) > maximum then None else Some(input[key])
  }

  /** `parseInteger` and `parseLong` */
  function ParseNumber(s: string, minimum: int, maximum: int): Option<int> {
    var n := Decimal.Parse(s);
    if n.Some? && minimum <= n.value <= maximum then n else None
  }

  /** `parseBoolean` */
  function ParseBoolean(s: string): Option<bool> {
    if s == "true" then Some(true) else if s == "false" then Some(false) else None
  }

  function Typed(n: Option<int>, make: int -> Value): Option<Value> {
    if n.Some? then Some(make(n.value)) else None
  }

  function Real(x: Option<real>, make: real -> Value): Option<Value> {
    if x.Some? then Some(make(x.value)) else None
  }

  const MAX_TIMESTAMP := 253_402_300_799

  /** `parseWriteValue` */
  function ParseValue(p: Platform, dataType: DataType, valueType: string, raw: string): Option<Value> {
    match dataType
    case CHAR => if valueType == "string" then Some(PlainText(raw)) else None
    case DIARY => if valueType == "string" then Some(DiaryText(raw)) else None
    case INTEGER | ENUM | BITMASK =>
      if valueType == "boolean" then
        var b := ParseBoolean(raw);
        if b.Some? then Some(Number(if b.value then 1 else 0)) else None
      else if valueType == "integer" then Typed(ParseNumber(raw, MIN_INT, MAX_INT), n => Number(n))
      else None
    case REAL => if valueType == "integer" || valueType == "number" then Real(p.double(raw), x => Double(x)) else None
    case DECIMAL => if valueType == "integer" || valueType == "number" then Real(p.decimal(raw), x => Exact(x)) else None
    case ULONG => if valueType == "integer" then Typed(ParseNumber(raw, 0, MAX_LONG), n => Unsigned(n)) else None
    case TIME => if valueType == "integer" then Typed(ParseNumber(raw, 0, MAX_TIMESTAMP), n => Moment(n)) else None
    case DATE => if valueType == "integer" then Typed(ParseNumber(raw, 0, MAX_INT), n => Day(n)) else None
    case TIME_OF_DAY => if valueType == "integer" then Typed(ParseNumber(raw, 0, 86_399), n => TimeOfDay(n)) else None
    case OTHER => None
  }

  function ParseFrom(
    p: Platform, input: map<string, string>, fields: seq<Field>, i: nat, count: nat, seen: set<string>, values: map<int, Value>)
    : Result<map<int, Value>, Error>
    requires i <= count
    decreases count - i
  {
    if i == count then Ok(values)
    else
      var name := RequiredText(input, Key("field_", i), MAX_NAME);
      if name.None? || p.lower(name.value) in seen then Err(BadRequest)
      else
        match Resolve(p, fields, p.lower(name.value))
        case Err(error) => Err(error)
        case Ok(field) =>
          var valueType := RequiredText(input, Key("value_type_", i), 16);
          var raw := RequiredRaw(input, Key("value_", i), MAX_VALUE);
          if valueType.None? || raw.None? then Err(BadRequest)
          else
            match ParseValue(p, field.dataType, valueType.value, raw.value)
            case None => Err(BadRequest)
            case Some(value) => ParseFrom(p, input, fields, i + 1, count, seen + {p.lower(name.value)}, values[field.id := value])
  }

  function Parse(p: Platform, input: map<string, string>, fields: seq<Field>): Result<map<int, Value>, Error> {
    var count := if "value_count" in input then ParseNumber(input["value_count"], 1, MAX_FIELDS) else None;
    if count.None? then Err(BadRequest) else ParseFrom(p, input, fields, 0, count.value, {}, map[])
  }

  /** A missing, unreadable or too large number of values is a bad request; a number of 1 to 32 is not refused
      for itself. */
  lemma CountIsChecked(p: Platform, input: map<string, string>, fields: seq<Field>)
    ensures var counted := "value_count" in input && Decimal.Parse(input["value_count"]).Some?
                           && 1 <= Decimal.Parse(input["value_count"]).value <= 32;
            && (!counted ==> Parse(p, input, fields) == Err(BadRequest))
            && (counted ==> Parse(p, input, fields)
                            == ParseFrom(p, input, fields, 0, Decimal.Parse(input["value_count"]).value, {}, map[]))
  {
    hide Decimal.Parse, ParseFrom;
  }

  /** `parseWriteValues` */
  method ParseWriteValues(p: Platform, input: map<string, string>, fields: seq<Field>) returns (r: Result<map<int, Value>, Error>)
    ensures r == Parse(p, input, fields)
  {
    if "value_count" !in input {
      return Err(BadRequest);
    }
    var count := ParseNumber(input["value_count"], 1, MAX_FIELDS);
    if count.None? {
      return Err(BadRequest);
    }
    var byName := IndexFields(p, fields);
    var seen: set<string> := {};
    var values: map<int, Value> := map[];
    var index := 0;
    while index < count.value
      invariant 0 <= index <= count.value
      invariant Parse(p, input, fields) == ParseFrom(p, input, fields, index, count.value, seen, values)
    {
      var name := RequiredText(input, Key("field_", index), MAX_NAME);
      if name.None? {
        return Err(BadRequest);
      }
      var canonical := p.lower(name.value);
      if canonical in seen {
        return Err(BadRequest);
      }
      seen := seen + {canonical};
      if canonical !in byName {
        return Err(BadRequest);
      }
      if byName[canonical].None? {
        return Err(AmbiguousField);
      }
      var field := byName[canonical].value;
      var valueType := RequiredText(input, Key("value_type_", index), 16);
      if valueType.None? {
        return Err(BadRequest);
      }
      var raw := RequiredRaw(input, Key("value_", index), MAX_VALUE);
      if raw.None? {
        return Err(BadRequest);
      }
      var value := ParseValue(p, field.dataType, valueType.value, raw.value);
      if value.None? {
        return Err(BadRequest);
      }
      values := values[field.id := value.value];
      index := index + 1;
    }
    return Ok(values);
  }

  // ------------------------------------------------------------ what is carried

  function Within(n: int, minimum: int, maximum: int, value: Value): Option<Value> {
    if minimum <= n <= maximum then Some(value) else None
  }

  /** What a field of each type receives for a value, without any text in between. */
  function Carried(p: Platform, dataType: DataType, v: Scalar): Option<Value> {
    match v
    case Str(s) =>
      if dataType == CHAR then Some(PlainText(s)) else if dataType == DIARY then Some(DiaryText(s)) else None
    case Bool(b) =>
      if dataType in {INTEGER, ENUM, BITMASK} then Some(Number(if b then 1 else 0)) else None
    case Int(n) =>
      (match dataType
       case INTEGER | ENUM | BITMASK => Within(n, MIN_INT, MAX_INT, Number(n))
       case ULONG => Within(n, 0, MAX_LONG, Unsigned(n))
       case TIME => Within(n, 0, MAX_TIMESTAMP, Moment(n))
       case DATE => Within(n, 0, MAX_INT, Day(n))
       case TIME_OF_DAY => Within(n, 0, 86_399, TimeOfDay(n))
       case REAL => Real(p.double(Decimal.Print(n)), x => Double(x))
       case DECIMAL => Real(p.decimal(Decimal.Print(n)), x => Exact(x))
       case _ => None)
    case Num(x) =>
      if dataType == REAL then Real(p.double(p.repr(x)), y => Double(y))
      else if dataType == DECIMAL then Real(p.decimal(p.repr(x)), y => Exact(y))
      else None
  }

  /** The numbers that each type takes: 32 bits with sign, days and the seconds of a day from 0, times up to the
      end of the year 9999, and unsigned ones up to the largest Java `long`. */
  lemma NumbersCarried(p: Platform, n: int)
    ensures forall t :: t in {INTEGER, ENUM, BITMASK} ==>
              Carried(p, t, Int(n)) == if -2_147_483_648 <= n <= 2_147_483_647 then Some(Number(n)) else None
    ensures Carried(p, DATE, Int(n)) == if 0 <= n <= 2_147_483_647 then Some(Day(n)) else None
    ensures Carried(p, TIME_OF_DAY, Int(n)) == if 0 <= n < 24 * 60 * 60 then Some(TimeOfDay(n)) else None
    ensures Carried(p, TIME, Int(n)) == if 0 <= n <= 253_402_300_799 then Some(Moment(n)) else None
    ensures Carried(p, ULONG, Int(n)) == if 0 <= n <= 9_223_372_036_854_775_807 then Some(Unsigned(n)) else None
    ensures forall t :: t in {CHAR, DIARY, OTHER} ==> Carried(p, t, Int(n)) == None
  {
  }

  lemma TypeNamesDiffer()
    ensures "string" != "boolean" && "string" != "integer" && "string" != "number"
    ensures "boolean" != "integer" && "boolean" != "number" && "integer" != "number" && "true" != "false"
  {
    assert "boolean"[0] != "integer"[0];
    assert "string"[0] != "number"[0];
  }

  lemma ParsedNumberIsCarried(p: Platform, dataType: DataType, n: int)
    ensures ParseValue(p, dataType, "integer", Decimal.Print(n)) == Carried(p, dataType, Int(n))
  {
    hide Decimal.Parse, Decimal.Print;
    TypeNamesDiffer();
    Decimal.PrintParses(n);
  }

  lemma ParsedIsCarried(p: Platform, dataType: DataType, v: Scalar)
    ensures ParseValue(p, dataType, TypeName(v), ValueText(p, v)) == Carried(p, dataType, v)
  {
    if v.Int? {
      ParsedNumberIsCarried(p, dataType, v.number);
    } else {
      hide ParseNumber;
      TypeNamesDiffer();
    }
  }

  // ------------------------------------------------------------- key by key

  predicate Prefix(prefix: string) {
    prefix == "field_" || prefix == "value_type_" || prefix == "value_"
  }

  lemma KeysDiffer(a: string, i: nat, b: string, j: nat)
    requires Prefix(a) && Prefix(b) && (a != b || i != j)
    ensures Key(a, i) != Key(b, j) && Key(a, i) != "value_count"
  {
    Decimal.DigitsRoundTrip(i);
    Decimal.DigitsRoundTrip(j);
    assert Key(a, i)[|a|..] == Decimal.Digits(i);
    assert Key(b, j)[|b|..] == Decimal.Digits(j);
    Seventh(a, i);
    Seventh(b, j);
  }

  /** The first and the seventh character tell the kinds of keys apart. */
  lemma Seventh(a: string, i: nat)
    requires Prefix(a)
    ensures |Key(a, i)| > 6
    ensures a == "field_" ==> Key(a, i)[0] == 'f'
    ensures a == "value_type_" ==> Key(a, i)[0] == 'v' && Key(a, i)[6] == 't'
    ensures a == "value_" ==> Key(a, i)[0] == 'v' && Decimal.IsDigit(Key(a, i)[6])
    ensures "value_count"[0] == 'v' && "value_count"[6] == 'c'
  {
    Decimal.DigitsRoundTrip(i);
    if a == "value_" {
      assert Key(a, i)[6] == Decimal.Digits(i)[0];
    }
  }

  ghost predicate HasEntry(p: Platform, data: map<string, string>, i: nat, e: (string, Scalar)) {
    && Key("field_", i) in data && data[Key("field_", i)] == e.0
    && Key("value_type_", i) in data && data[Key("value_type_", i)] == TypeName(e.1)
    && Key("value_", i) in data && data[Key("value_", i)] == ValueText(p, e.1)
  }

  ghost predicate HasCount(data: map<string, string>, count: nat) {
    "value_count" in data && data["value_count"] == Decimal.Digits(count)
  }

  lemma AddedEntry(p: Platform, data: map<string, string>, i: nat, e: (string, Scalar), count: nat)
    ensures HasEntry(p, AddEntry(p, data, i, e), i, e)
    ensures HasCount(data, count) ==> HasCount(AddEntry(p, data, i, e), count)
  {
    hide Key, TypeName, ValueText;
    KeysDiffer("field_", i, "value_type_", i);
    KeysDiffer("field_", i, "value_", i);
    KeysDiffer("value_type_", i, "value_", i);
    KeysDiffer("value_", i, "field_", i);
  }

  lemma OtherEntryStays(p: Platform, data: map<string, string>, k: nat, kept: (string, Scalar), i: nat, e: (string, Scalar))
    requires k != i && HasEntry(p, data, k, kept)
    ensures HasEntry(p, AddEntry(p, data, i, e), k, kept)
  {
    hide Key, TypeName, ValueText;
    KeyIsNotAmong("field_", k, i);
    KeyIsNotAmong("value_type_", k, i);
    KeyIsNotAmong("value_", k, i);
  }

  lemma KeyIsNotAmong(a: string, k: nat, i: nat)
    requires Prefix(a) && k != i
    ensures Key(a, k) != Key("field_", i) && Key(a, k) != Key("value_type_", i) && Key(a, k) != Key("value_", i)
  {
    KeysDiffer(a, k, "field_", i);
    KeysDiffer(a, k, "value_type_", i);
    KeysDiffer(a, k, "value_", i);
  }

  lemma {:induction false} EncodedAt(p: Platform, vs: Dict, n: nat, i: nat)
    requires n <= |vs|
    ensures HasCount(Encoded(p, vs, n), |vs|)
    ensures i < n ==> HasEntry(p, Encoded(p, vs, n), i, vs[i])
  {
    hide HasEntry, AddEntry;
    if n > 0 {
      var data := Encoded(p, vs, n - 1);
      EncodedAt(p, vs, n - 1, i);
      AddedEntry(p, data, n - 1, vs[n - 1], |vs|);
      if i < n - 1 {
        OtherEntryStays(p, data, i, vs[i], n - 1, vs[n - 1]);
      }
    }
  }

  lemma SafeNameIsValid(name: string)
    requires SafeText(name, MAX_NAME)
    ensures ValidText(name, MAX_NAME) == if JavaText.Length(name) > MAX_NAME then None else Some(name)
  {
    JavaText.StrippedByPython(name);
  }

  lemma TypeNameIsValid(v: Scalar)
    ensures ValidText(TypeName(v), 16) == Some(TypeName(v))
  {
    var s := TypeName(v);
    JavaText.StripShrinks(s, JavaText.IsWhitespace);
    JavaText.LengthBounds(s);
    assert forall i :: 0 <= i < |s| ==> 'a' <= s[i] <= 'z';
  }

  // ------------------------------------------------------------- main theorems

  /** What one named value comes to, judged alone. */
  function Outcome(p: Platform, fields: seq<Field>, e: (string, Scalar)): Result<(Field, Value), Error> {
    if JavaText.Length(e.0) > MAX_NAME then Err(BadRequest)
    else
      match Resolve(p, fields, p.lower(e.0))
      case Err(error) => Err(error)
      case Ok(field) =>
        var value := Carried(p, field.dataType, e.1);
        if JavaText.Length(ValueText(p, e.1)) > MAX_VALUE || value.None? then Err(BadRequest) else Ok((field, value.value))
  }

  /** All outcomes together: the first failure, or a value for each field. */
  function Collect(p: Platform, fields: seq<Field>, vs: Dict, i: nat, values: map<int, Value>): Result<map<int, Value>, Error>
    requires i <= |vs|
    decreases |vs| - i
  {
    if i == |vs| then Ok(values)
    else
      match Outcome(p, fields, vs[i])
      case Err(error) => Err(error)
      case Ok((field, value)) => Collect(p, fields, vs, i + 1, values[field.id := value])
  }

  ghost predicate LowersOf(p: Platform, vs: Dict, i: nat, seen: set<string>) {
    i <= |vs| && forall c :: c in seen ==> exists k :: 0 <= k < i && c == p.lower(vs[k].0)
  }

  /** What the bridge reads back of one entry. */
  lemma EntryReadBack(p: Platform, vs: Dict, i: nat)
    requires Encodable(p, vs) && i < |vs|
    ensures var data := Encoded(p, vs, |vs|);
            var (name, value) := vs[i];
            && RequiredText(data, Key("field_", i), MAX_NAME) == (if JavaText.Length(name) > MAX_NAME then None else Some(name))
            && RequiredText(data, Key("value_type_", i), 16) == Some(TypeName(value))
            && RequiredRaw(data, Key("value_", i), MAX_VALUE)
               == (if JavaText.Length(ValueText(p, value)) > MAX_VALUE then None else Some(ValueText(p, value)))
  {
    hide Encoded, Key, ValidText, ValueText, TypeName, JavaText.Length;
    EncodedAt(p, vs, |vs|, i);
    assert GoodField(vs[i].0);
    SafeNameIsValid(vs[i].0);
    TypeNameIsValid(vs[i].1);
  }

  lemma NameIsNew(p: Platform, vs: Dict, i: nat, seen: set<string>)
    requires FoldIsCoarser(p) && Encodable(p, vs) && i < |vs| && LowersOf(p, vs, i, seen)
    ensures p.lower(vs[i].0) !in seen
    ensures LowersOf(p, vs, i + 1, seen + {p.lower(vs[i].0)})
  {
  }

  lemma {:induction false} ParseFromEncoded(
    p: Platform, vs: Dict, fields: seq<Field>, i: nat, seen: set<string>, values: map<int, Value>)
    requires FoldIsCoarser(p) && Encodable(p, vs) && LowersOf(p, vs, i, seen)
    ensures ParseFrom(p, Encoded(p, vs, |vs|), fields, i, |vs|, seen, values) == Collect(p, fields, vs, i, values)
    decreases |vs| - i
  {
    hide Encoded, Key, ParseValue, Carried, Resolve, RequiredText, RequiredRaw, ValueText, TypeName, JavaText.Length, Encodable,
      FoldIsCoarser;
    if i < |vs| {
      var (name, value) := vs[i];
      EntryReadBack(p, vs, i);
      NameIsNew(p, vs, i, seen);
      var lowered := p.lower(name);
      if JavaText.Length(name) <= MAX_NAME && Resolve(p, fields, lowered).Ok? {
        var field := Resolve(p, fields, lowered).value;
        ParsedIsCarried(p, field.dataType, value);
        var carried := Carried(p, field.dataType, value);
        if carried.Some? {
          ParseFromEncoded(p, vs, fields, i + 1, seen + {lowered}, values[field.id := carried.value]);
        }
      }
    }
  }

  lemma ParseOfEncoded(p: Platform, vs: Dict, fields: seq<Field>)
    requires FoldIsCoarser(p) && Encodable(p, vs)
    ensures Parse(p, Encoded(p, vs, |vs|), fields) == Collect(p, fields, vs, 0, map[])
  {
    EncodedAt(p, vs, |vs|, 0);
    Decimal.PrintParses(|vs|);
    ParseFromEncoded(p, vs, fields, 0, {}, map[]);
  }

  /** No two fields of a form share an id. */
  ghost predicate DistinctIds(fields: seq<Field>) {
    forall f, g :: f in fields && g in fields && f.id == g.id ==> f == g
  }

  lemma {:induction false} BearersAre(p: Platform, fields: seq<Field>, canonical: string, f: Field)
    ensures f in Bearers(p, fields, canonical) <==> f in fields && Canonical(p, f) == canonical
  {
    if fields != [] {
      BearersAre(p, fields[..|fields| - 1], canonical, f);
      assert fields == fields[..|fields| - 1] + [fields[|fields| - 1]];
    }
  }

  lemma OutcomeBearsName(p: Platform, fields: seq<Field>, e: (string, Scalar))
    requires Outcome(p, fields, e).Ok?
    ensures var (field, value) := Outcome(p, fields, e).value;
            field in fields && Canonical(p, field) == p.lower(e.0)
  {
    hide Carried, ValueText;
    var field := Outcome(p, fields, e).value.0;
    BearersAre(p, fields, p.lower(e.0), field);
  }

  /** Each value sits under the id of its field, and nothing else is there. */
  ghost predicate Holds(p: Platform, fields: seq<Field>, vs: Dict, i: nat, values: map<int, Value>) {
    && i <= |vs| && |values| == i
    && (forall k :: 0 <= k < i ==> Delivered(p, fields, vs[k], values))
    && (forall id :: id in values ==> exists k :: 0 <= k < i && Owns(p, fields, vs[k], id))
  }

  ghost predicate Owns(p: Platform, fields: seq<Field>, e: (string, Scalar), id: int) {
    Outcome(p, fields, e).Ok? && Outcome(p, fields, e).value.0.id == id
  }

  ghost predicate Delivered(p: Platform, fields: seq<Field>, e: (string, Scalar), values: map<int, Value>) {
    && Outcome(p, fields, e).Ok?
    && var (field, value) := Outcome(p, fields, e).value;
       field.id in values && values[field.id] == value
  }

  lemma OwnersDiffer(p: Platform, fields: seq<Field>, vs: Dict, k: nat, i: nat)
    requires FoldIsCoarser(p) && Encodable(p, vs) && DistinctIds(fields) && k < i < |vs|
    requires Outcome(p, fields, vs[k]).Ok? && Outcome(p, fields, vs[i]).Ok?
    ensures Outcome(p, fields, vs[k]).value.0.id != Outcome(p, fields, vs[i]).value.0.id
  {
    OutcomeBearsName(p, fields, vs[k]);
    OutcomeBearsName(p, fields, vs[i]);
  }

  lemma NextIdIsNew(p: Platform, fields: seq<Field>, vs: Dict, i: nat, values: map<int, Value>)
    requires FoldIsCoarser(p) && Encodable(p, vs) && DistinctIds(fields)
    requires i < |vs| && Holds(p, fields, vs, i, values) && Outcome(p, fields, vs[i]).Ok?
    ensures Outcome(p, fields, vs[i]).value.0.id !in values
  {
    hide Outcome, FoldIsCoarser, Encodable, DistinctIds;
    var id := Outcome(p, fields, vs[i]).value.0.id;
    if id in values {
      var k :| 0 <= k < i && Owns(p, fields, vs[k], id);
      OwnersDiffer(p, fields, vs, k, i);
    }
  }

  lemma DeliveredStays(p: Platform, fields: seq<Field>, e: (string, Scalar), values: map<int, Value>, id: int, value: Value)
    requires Delivered(p, fields, e, values) && id !in values
    ensures Delivered(p, fields, e, values[id := value])
  {
  }

  lemma HoldsStep(p: Platform, fields: seq<Field>, vs: Dict, i: nat, values: map<int, Value>)
    requires FoldIsCoarser(p) && Encodable(p, vs) && DistinctIds(fields)
    requires i < |vs| && Holds(p, fields, vs, i, values) && Outcome(p, fields, vs[i]).Ok?
    ensures var (field, value) := Outcome(p, fields, vs[i]).value;
            Holds(p, fields, vs, i + 1, values[field.id := value])
  {
    hide Outcome, FoldIsCoarser, Encodable, DistinctIds, Delivered, Owns;
    NextIdIsNew(p, fields, vs, i, values);
    var (field, value) := Outcome(p, fields, vs[i]).value;
    var more := values[field.id := value];
    assert Owns(p, fields, vs[i], field.id) && Delivered(p, fields, vs[i], more) by {
      OwnsItsId(p, fields, vs[i], values);
    }
    assert more.Keys == values.Keys + {field.id};
    forall k | 0 <= k < i + 1
      ensures Delivered(p, fields, vs[k], more)
    {
      if k < i {
        DeliveredStays(p, fields, vs[k], values, field.id, value);
      }
    }
    forall id | id in more
      ensures exists k :: 0 <= k < i + 1 && Owns(p, fields, vs[k], id)
    {
      if id != field.id {
        var k :| 0 <= k < i && Owns(p, fields, vs[k], id);
      }
    }
  }

  lemma OwnsItsId(p: Platform, fields: seq<Field>, e: (string, Scalar), values: map<int, Value>)
    requires Outcome(p, fields, e).Ok?
    ensures var (field, value) := Outcome(p, fields, e).value;
            Owns(p, fields, e, field.id) && Delivered(p, fields, e, values[field.id := value])
  {
  }

  /** Where the parse stops: at the first value that fails, with its error. */
  ghost predicate StopsAt(p: Platform, fields: seq<Field>, vs: Dict, k: nat, error: Error) {
    && k < |vs| && Outcome(p, fields, vs[k]) == Err(error)
    && forall j :: 0 <= j < k ==> Outcome(p, fields, vs[j]).Ok?
  }

  lemma HeldAreOk(p: Platform, fields: seq<Field>, vs: Dict, i: nat, values: map<int, Value>)
    requires Holds(p, fields, vs, i, values)
    ensures i <= |vs|
    ensures forall j :: 0 <= j < i ==> Outcome(p, fields, vs[j]).Ok?
  {
    hide Outcome;
    forall j | 0 <= j < i
      ensures Outcome(p, fields, vs[j]).Ok?
    {
      assert Delivered(p, fields, vs[j], values);
    }
  }

  lemma {:induction false} CollectMeans(p: Platform, fields: seq<Field>, vs: Dict, i: nat, values: map<int, Value>)
    requires FoldIsCoarser(p) && Encodable(p, vs) && DistinctIds(fields) && Holds(p, fields, vs, i, values)
    ensures var r := Collect(p, fields, vs, i, values);
            if r.Ok? then Holds(p, fields, vs, |vs|, r.value) else exists k :: StopsAt(p, fields, vs, k, r.error)
    decreases |vs| - i
  {
    hide Outcome, FoldIsCoarser, Encodable, DistinctIds, Holds;
    HeldAreOk(p, fields, vs, i, values);
    if i < |vs| {
      if Outcome(p, fields, vs[i]).Ok? {
        var (field, value) := Outcome(p, fields, vs[i]).value;
        HoldsStep(p, fields, vs, i, values);
        CollectMeans(p, fields, vs, i + 1, values[field.id := value]);
      } else {
        assert StopsAt(p, fields, vs, i, Outcome(p, fields, vs[i]).error);
      }
    }
  }

  /** Parsing what was encoded succeeds exactly when each value alone succeeds, and then yields just one
      value for each, under the id of its field; otherwise it reports the first failure. */
  lemma EncodedValuesArrive(p: Platform, vs: Dict, fields: seq<Field>)
    requires FoldIsCoarser(p) && Encodable(p, vs) && DistinctIds(fields)
    ensures var r := Parse(p, Encoded(p, vs, |vs|), fields);
            && (r.Ok? <==> forall i :: 0 <= i < |vs| ==> Outcome(p, fields, vs[i]).Ok?)
            && (r.Ok? ==> Holds(p, fields, vs, |vs|, r.value))
            && (r.Err? ==> exists k :: StopsAt(p, fields, vs, k, r.error))
  {
    hide Outcome, FoldIsCoarser, Encodable, DistinctIds, Parse, Encoded;
    ParseOfEncoded(p, vs, fields);
    assert Holds(p, fields, vs, 0, map[]);
    CollectMeans(p, fields, vs, 0, map[]);
    var r := Parse(p, Encoded(p, vs, |vs|), fields);
    if r.Ok? {
      HeldAreOk(p, fields, vs, |vs|, r.value);
    }
  }

  /** A good outcome names the only field with that name, and carries the value itself: strings as they
      are, numbers in the range of the field's type, truth values as one and zero. */
  lemma OutcomeIsTheOnlyField(p: Platform, fields: seq<Field>, e: (string, Scalar), field: Field, value: Value)
    requires Outcome(p, fields, e) == Ok((field, value))
    ensures Bearers(p, fields, p.lower(e.0)) == [field] && field in fields
    ensures forall g :: g in fields && Canonical(p, g) == p.lower(e.0) ==> g == field
    ensures Carried(p, field.dataType, e.1) == Some(value)
    ensures e.1.Str? ==> value == (if field.dataType == CHAR then PlainText(e.1.text) else DiaryText(e.1.text))
    ensures e.1.Bool? ==> value == Number(if e.1.truth then 1 else 0)
    ensures e.1.Int? && field.dataType in {INTEGER, ENUM, BITMASK} ==> value == Number(e.1.number)
  {
    hide ValueText;
    OutcomeBearsName(p, fields, e);
    forall g | g in fields && Canonical(p, g) == p.lower(e.0)
      ensures g == field
    {
      BearersAre(p, fields, p.lower(e.0), g);
    }
  }

  lemma {:induction false} SharedNameHasBearers(p: Platform, fields: seq<Field>, canonical: string, a: nat, b: nat)
    requires a < b < |fields| && Canonical(p, fields[a]) == Canonical(p, fields[b]) == canonical
    ensures |Bearers(p, fields, canonical)| > 1
  {
    hide Canonical;
    var front := fields[..|fields| - 1];
    if b < |fields| - 1 {
      SharedNameHasBearers(p, front, canonical, a, b);
    } else {
      assert front[a] == fields[a];
      BearersAre(p, front, canonical, fields[a]);
    }
  }

  /** A name that two or more fields share, however many, is never written: where it is the first value
      to fail, the bridge reports it as ambiguous. */
  lemma SharedNameIsAmbiguous(p: Platform, vs: Dict, fields: seq<Field>, i: nat, a: nat, b: nat)
    requires FoldIsCoarser(p) && Encodable(p, vs)
    requires i < |vs| && JavaText.Length(vs[i].0) <= MAX_NAME
    requires a < b < |fields| && Canonical(p, fields[a]) == Canonical(p, fields[b]) == p.lower(vs[i].0)
    ensures var r := Parse(p, Encoded(p, vs, |vs|), fields);
            && r.Err?
            && ((forall j :: 0 <= j < i ==> Outcome(p, fields, vs[j]).Ok?) ==> r == Err(AmbiguousField))
  {
    SharedNameHasBearers(p, fields, p.lower(vs[i].0), a, b);
    assert Outcome(p, fields, vs[i]) == Err(AmbiguousField);
    hide Outcome, Parse, Encoded, Encodable, FoldIsCoarser;
    ParseOfEncoded(p, vs, fields);
    CollectStops(p, fields, vs, 0, map[], i);
  }

  /** One failure fails all, and is the one reported when nothing before it fails. */
  lemma {:induction false} CollectStops(p: Platform, fields: seq<Field>, vs: Dict, i: nat, values: map<int, Value>, k: nat)
    requires i <= k < |vs| && Outcome(p, fields, vs[k]).Err?
    ensures var r := Collect(p, fields, vs, i, values);
            && r.Err?
            && ((forall j :: i <= j < k ==> Outcome(p, fields, vs[j]).Ok?) ==> r.error == Outcome(p, fields, vs[k]).error)
    decreases k - i
  {
    hide Outcome;
    if i < k && Outcome(p, fields, vs[i]).Ok? {
      var (field, value) := Outcome(p, fields, vs[i]).value;
      CollectStops(p, fields, vs, i + 1, values[field.id := value], k);
    }
  }

  /** Python counts code points, Java counts UTF-16 units: a name the gateway lets pass can be too
      long for the bridge. */
  lemma AstralNameIsRefused(p: Platform, fields: seq<Field>)
    ensures var name := seq(200, _ => '\U{1F600}');
            GoodField(name) && forall v :: Outcome(p, fields, (name, v)) == Err(BadRequest)
  {
    var name := seq(200, _ => '\U{1F600}');
    JavaText.LengthBounds(name);
    JavaText.StripShrinks(name, JavaText.IsPythonSpace);
  }
}
