/** The catalogue queries themselves: their texts, piece by piece, and what the bridge makes of them. */
module CatalogQueries {
  import opened Common
  import opened SqlText
  import opened SqlVocabulary
  import opened MetadataQueries

  // -------------------------------------------------------- the fixed texts

  function ObjectColumns(): Piece {
    Fixed("", [U("select", "\n    "),
               L("n", "."), L("nspname", " "), U("as", " "), L("schema_name", ",\n    ")])
  }

  function NameColumns(): Piece {
    Fixed("", [L("c", "."), L("relname", " "), U("as", " "), L("object_name", ",\n    "),
               U("case", " "), L("c", "."), L("relkind", "\n        "), U("when", " ")])
  }

  function Then(): Piece {
    Fixed(" ", [U("then", " ")])
  }

  function When(): Piece {
    Fixed("\n        ", [U("when", " ")])
  }

  function CaseEnd(): Piece {
    Fixed("\n    ", [U("end", " "), U("as", " "), L("object_kind", "\n")])
  }

  function ClassSource(): Piece {
    Fixed("", [U("from", " "), L("pg_catalog", "."), L("pg_class", " "), U("as", " "), L("c", "\n")])
  }

  function NamespaceSource(): Piece {
    Fixed("", [U("join", " "), L("pg_catalog", "."), L("pg_namespace", " "), U("as", " "), L("n", " "),
               U("on", " "), L("n", "."), L("oid", " = "), L("c", "."), L("relnamespace", "\n")])
  }

  function AttributeColumns(): Piece {
    Fixed("", [U("select", "\n    "),
               L("a", "."), L("attname", " "), U("as", " "), L("column_name", ",\n    ")])
  }

  function TypeColumn(): Piece {
    Fixed("", [L("pg_catalog", "."), L("format_type", "("), L("a", "."), L("atttypid", ", "), L("a", "."),
               L("atttypmod", ") "), U("as", " "), L("data_type", ",\n    ")])
  }

  function MoreAttributeColumns(): Piece {
    Fixed("", [U("not", " "), L("a", "."), L("attnotnull", " "), U("as", " "), L("nullable", ",\n    "),
               L("a", "."), L("attnum", " "), U("as", " "), L("ordinal_position", "\n")])
  }

  function AttributeSource(): Piece {
    Fixed("", [U("join", " "), L("pg_catalog", "."), L("pg_attribute", " "), U("as", " "), L("a", " "),
               U("on", " "), L("a", "."), L("attrelid", " = "), L("c", "."), L("oid", "\n")])
  }

  function KindIn(): Piece {
    Fixed("", [U("where", " "), L("c", "."), L("relkind", " "), U("in", " (")])
  }

  function SchemaIs(): Piece {
    Fixed("  ", [U("and", " "), L("n", "."), L("nspname", " = ")])
  }

  function SchemaIsNot(): Piece {
    Fixed("  ", [U("and", " "), L("n", "."), L("nspname", " <> ")])
  }

  function SchemaNotLike(): Piece {
    Fixed("  ", [U("and", " "), L("n", "."), L("nspname", " "), U("not", " "), U("like", " ")])
  }

  function NameIs(): Piece {
    Fixed("  ", [U("and", " "), L("c", "."), L("relname", " = ")])
  }

  function NameContains(): Piece {
    Fixed("  ", [U("and", " "), L("strpos", "("), L("lower", "("), L("c", "."), L("relname", "), "), L("lower", "(")])
  }

  function ColumnContains(): Piece {
    Fixed("  ", [U("and", " "), L("strpos", "("), L("lower", "("), L("a", "."), L("attname", "), "), L("lower", "(")])
  }

  function IsFound(): Piece {
    Fixed(")) > ", [L("0", "\n")])
  }

  function FilterStart(): Piece {
    Fixed("  ", [U("and", " (")])
  }

  function LowerNameIn(): Piece {
    Fixed("", [L("lower", "("), L("c", "."), L("relname", ") "), U("in", " (")])
  }

  function LowerSchema(): Piece {
    Fixed("", [L("lower", "("), L("n", "."), L("nspname", " || ")])
  }

  function DotNameIn(): Piece {
    Fixed(" || ", [L("c", "."), L("relname", ") "), U("in", " (")])
  }

  function Or(): Piece {
    Fixed(" ", [U("or", " ")])
  }

  function KindIs(): Piece {
    Fixed("  ", [U("and", " "), L("c", "."), L("relkind", " = ")])
  }

  function IsUserColumn(): Piece {
    Fixed("  ", [U("and", " "), L("a", "."), L("attnum", " > "), L("0", "\n  "),
                 U("and", " "), U("not", " "), L("a", "."), L("attisdropped", "\n")])
  }

  function ObjectOrder(): Piece {
    Fixed("", [U("order", " "), U("by", " "), L("n", "."), L("nspname", ", "), L("c", "."), L("relname", "\n"),
               U("offset", " ")])
  }

  function ColumnOrder(): Piece {
    Fixed("", [U("order", " "), U("by", " "), L("a", "."), L("attnum", "\n"), U("offset", " ")])
  }

  function Gap(gap: string): Piece {
    Fixed(gap, [])
  }

  // ---------------------------------------------------------- they are harmless

  ghost predicate GapsOk() {
    && GapOk(" ") && GapOk(".") && GapOk(", ") && GapOk("(") && GapOk(") ") && GapOk(" (") && GapOk("), ")
    && GapOk(" = ") && GapOk(" > ") && GapOk(" <> ") && GapOk(" || ") && GapOk(")) > ")
  }

  ghost predicate LineGapsOk() {
    && GapOk("  ") && GapOk("\n") && GapOk("\n  ") && GapOk("\n    ") && GapOk("\n        ") && GapOk(",\n    ")
    && GapOk(")") && GapOk(")\n")
  }

  lemma GapsPass()
    ensures GapsOk() && LineGapsOk()
  {
  }

  lemma ObjectColumnsPass()
    ensures PieceOk(ObjectColumns())
  {
    hide WordOk, GapOk;
    GapsPass();
    KnownWords();
  }

  lemma NameColumnsPass()
    ensures PieceOk(NameColumns())
  {
    hide WordOk, GapOk;
    GapsPass();
    KnownWords();
  }

  lemma CaseTextsPass()
    ensures PieceOk(Then()) && PieceOk(When()) && PieceOk(CaseEnd())
  {
    hide WordOk, GapOk;
    GapsPass();
    KnownWords();
  }

  lemma ClassSourcePasses()
    ensures PieceOk(ClassSource())
  {
    hide WordOk, GapOk;
    GapsPass();
    KnownWords();
  }

  lemma NamespaceSourcePasses()
    ensures PieceOk(NamespaceSource())
  {
    hide WordOk, GapOk;
    GapsPass();
    KnownWords();
  }

  lemma KindInPasses()
    ensures PieceOk(KindIn())
  {
    hide WordOk, GapOk;
    GapsPass();
    KnownWords();
  }

  lemma AttributeColumnsPass()
    ensures PieceOk(AttributeColumns())
  {
    hide WordOk, GapOk;
    GapsPass();
    KnownWords();
  }

  lemma TypeColumnPasses()
    ensures PieceOk(TypeColumn())
  {
    hide WordOk, GapOk;
    GapsPass();
    KnownWords();
  }

  lemma MoreAttributeColumnsPass()
    ensures PieceOk(MoreAttributeColumns())
  {
    hide WordOk, GapOk;
    GapsPass();
    KnownWords();
  }

  lemma AttributeSourcePasses()
    ensures PieceOk(AttributeSource())
  {
    hide WordOk, GapOk;
    GapsPass();
    KnownWords();
  }

  lemma ConditionTextsPass()
    ensures PieceOk(SchemaIs()) && PieceOk(SchemaIsNot()) && PieceOk(SchemaNotLike()) && PieceOk(NameIs()) && PieceOk(KindIs())
  {
    hide WordOk, GapOk;
    GapsPass();
    KnownWords();
  }

  lemma SearchTextsPass()
    ensures PieceOk(NameContains()) && PieceOk(ColumnContains()) && PieceOk(IsFound())
  {
    hide WordOk, GapOk;
    GapsPass();
    KnownWords();
  }

  lemma FilterTextsPass()
    ensures PieceOk(FilterStart()) && PieceOk(LowerNameIn()) && PieceOk(LowerSchema()) && PieceOk(DotNameIn()) && PieceOk(Or())
  {
    hide WordOk, GapOk;
    GapsPass();
    KnownWords();
  }

  lemma OrderTextsPass()
    ensures PieceOk(ObjectOrder()) && PieceOk(ColumnOrder())
  {
    hide WordOk, GapOk;
    GapsPass();
    KnownWords();
  }

  lemma UserColumnTextPasses()
    ensures PieceOk(IsUserColumn())
  {
    hide WordOk, GapOk;
    GapsPass();
    KnownWords();
  }

  // ------------------------------------------------------------------ assembly

  ghost predicate Part(ps: seq<Piece>, values: seq<string>) {
    PiecesOk(ps) && Literals(ps) == values
  }

  lemma OnePiece(p: Piece)
    requires PieceOk(p)
    ensures Part([p], if p.Lit? then [p.value] else [])
  {
  }

  lemma Join(ps: seq<Piece>, vs: seq<string>, qs: seq<Piece>, ws: seq<string>)
    requires Part(ps, vs) && Part(qs, ws)
    ensures Part(ps + qs, vs + ws)
  {
    LiteralsConcat(ps, qs);
  }

  /** A fixed text, an embedded value, and a gap. */
  function Clause(text: Piece, value: string, end: Piece): seq<Piece> {
    [text, Lit(value), end]
  }

  lemma ClauseIsPart(text: Piece, value: string, end: Piece)
    requires text.Fixed? && end.Fixed? && PieceOk(text) && PieceOk(end)
    ensures Part(Clause(text, value, end), [value])
  {
    OnePiece(text);
    OnePiece(Lit(value));
    OnePiece(end);
    Join([text], [], [Lit(value)], [value]);
    Join([text] + [Lit(value)], [] + [value], [end], []);
    assert [text] + [Lit(value)] + [end] == Clause(text, value, end);
    assert [] + [value] + [] == [value];
  }

  /** `", ".join(_sql_literal(item) for item in values)` */
  function ValueList(values: seq<string>): seq<Piece> {
    if values == [] then []
    else if |values| == 1 then [Lit(values[0])]
    else [Lit(values[0]), Gap(", ")] + ValueList(values[1..])
  }

  lemma {:induction false} ValueListIsPart(values: seq<string>)
    ensures Part(ValueList(values), values)
  {
    if |values| == 1 {
      OnePiece(Lit(values[0]));
    } else if values != [] {
      ValueListIsPart(values[1..]);
      var head := [Lit(values[0]), Gap(", ")];
      OnePiece(Lit(values[0]));
      OnePiece(Gap(", ")) by {
        GapsPass();
      }
      Join([Lit(values[0])], [values[0]], [Gap(", ")], []);
      assert [Lit(values[0])] + [Gap(", ")] == head && [values[0]] + [] == [values[0]];
      Join(head, [values[0]], ValueList(values[1..]), values[1..]);
      assert [values[0]] + values[1..] == values;
    }
  }

  /** `<text> IN (<values>)` */
  function InList(text: seq<Piece>, values: seq<string>, end: string): seq<Piece> {
    text + ValueList(values) + [Gap(end)]
  }

  lemma InListIsPart(text: seq<Piece>, before: seq<string>, values: seq<string>, end: string)
    requires Part(text, before) && GapOk(end)
    ensures Part(InList(text, values, end), before + values)
  {
    ValueListIsPart(values);
    OnePiece(Gap(end));
    Join(text, before, ValueList(values), values);
    Join(text + ValueList(values), before + values, [Gap(end)], []);
    assert before + values + [] == before + values;
  }

  function Kinds(): seq<(string, string)> {
    [("r", "table"), ("p", "partitioned_table"), ("v", "view"), ("m", "materialized_view"), ("f", "foreign_table")]
  }

  function KindCases(kinds: seq<(string, string)>): seq<Piece> {
    if kinds == [] then []
    else
      [Lit(kinds[0].0), Then(), Lit(kinds[0].1)]
      + (if |kinds| > 1 then [When()] else []) + KindCases(kinds[1..])
  }

  function KindNames(kinds: seq<(string, string)>): seq<string> {
    if kinds == [] then [] else [kinds[0].0, kinds[0].1] + KindNames(kinds[1..])
  }

  lemma LiteralsPass()
    ensures forall v :: PieceOk(Lit(v))
  {
  }

  lemma CaseIsPart(kind: string, name: string)
    ensures Part([Lit(kind), Then(), Lit(name)], [kind, name])
  {
    hide PieceOk, Part;
    CaseTextsPass();
    assert PieceOk(Lit(kind)) && PieceOk(Lit(name)) by {
      LiteralsPass();
    }
    OnePiece(Lit(kind));
    OnePiece(Then());
    OnePiece(Lit(name));
    Join([Lit(kind)], [kind], [Then()], []);
    Join([Lit(kind)] + [Then()], [kind] + [], [Lit(name)], [name]);
    assert [Lit(kind)] + [Then()] + [Lit(name)] == [Lit(kind), Then(), Lit(name)];
    assert [kind] + [] + [name] == [kind, name];
  }

  lemma {:induction false} KindCasesArePart(kinds: seq<(string, string)>)
    ensures Part(KindCases(kinds), KindNames(kinds))
  {
    if kinds != [] {
      var head, names := [Lit(kinds[0].0), Then(), Lit(kinds[0].1)], [kinds[0].0, kinds[0].1];
      CaseIsPart(kinds[0].0, kinds[0].1);
      KindCasesArePart(kinds[1..]);
      var next := if |kinds| > 1 then [When()] else [];
      assert Part(next, []) by {
        CaseTextsPass();
        OnePiece(When());
      }
      Join(head, names, next, []);
      assert names + [] == names;
      Join(head + next, names, KindCases(kinds[1..]), KindNames(kinds[1..]));
    }
  }

  function RelationKinds(): seq<string> {
    ["r", "p", "v", "m", "f"]
  }

  /** `_OBJECT_SELECT` and the line end after it. */
  function ObjectSelect(): seq<Piece> {
    [ObjectColumns()] + ([NameColumns()] + KindCases(Kinds())) + [CaseEnd()] + [ClassSource()] + [NamespaceSource()]
    + InList([KindIn()], RelationKinds(), ")\n")
  }

  /** `_COLUMNS_SELECT` and the line end after it. */
  function ColumnsSelect(): seq<Piece> {
    [AttributeColumns()] + [TypeColumn()] + [MoreAttributeColumns()] + [ClassSource()] + [NamespaceSource()]
    + [AttributeSource()] + InList([KindIn()], RelationKinds(), ")\n")
  }

  lemma FirstPiece(p: Piece, ps: seq<Piece>, values: seq<string>)
    requires p.Fixed? && PieceOk(p) && p.words != [] && p.words[0].word == "select" && Part(ps, values)
    ensures Query([p] + ps, values)
  {
    OnePiece(p);
    Join([p], [], ps, values);
    assert [] + values == values;
    assert Keywords([p] + ps) == Words(p.words) + Keywords(ps) by {
      assert ([p] + ps)[1..] == ps;
    }
  }

  lemma Extend(ps: seq<Piece>, vs: seq<string>, qs: seq<Piece>, ws: seq<string>)
    requires Query(ps, vs) && Part(qs, ws)
    ensures Query(ps + qs, vs + ws)
  {
    Append(ps, vs, qs);
  }

  lemma ExtendText(ps: seq<Piece>, vs: seq<string>, p: Piece)
    requires Query(ps, vs) && p.Fixed? && PieceOk(p)
    ensures Query(ps + [p], vs)
  {
    OnePiece(p);
    Extend(ps, vs, [p], []);
    assert vs + [] == vs;
  }

  lemma KindInIsPart()
    ensures Part(InList([KindIn()], RelationKinds(), ")\n"), RelationKinds())
  {
    hide PieceOk, GapOk, InList, Part;
    KindInPasses();
    GapsPass();
    OnePiece(KindIn());
    InListIsPart([KindIn()], [], RelationKinds(), ")\n");
    assert [] + RelationKinds() == RelationKinds();
  }

  lemma ObjectSelectIsQuery()
    ensures Query(ObjectSelect(), KindNames(Kinds()) + RelationKinds())
  {
    hide PieceOk, InList, Part, Query, KindCases, KindNames, Kinds, RelationKinds;
    ObjectColumnsPass();
    NameColumnsPass();
    CaseTextsPass();
    ClassSourcePasses();
    NamespaceSourcePasses();
    KindCasesArePart(Kinds());
    var values := KindNames(Kinds());
    OnePiece(NameColumns());
    Join([NameColumns()], [], KindCases(Kinds()), values);
    assert [] + values == values;
    var columns := [NameColumns()] + KindCases(Kinds());
    FirstPiece(ObjectColumns(), columns, values);
    var ps := [ObjectColumns()] + columns;
    ExtendText(ps, values, CaseEnd());
    ExtendText(ps + [CaseEnd()], values, ClassSource());
    ExtendText(ps + [CaseEnd()] + [ClassSource()], values, NamespaceSource());
    KindInIsPart();
    Extend(ps + [CaseEnd()] + [ClassSource()] + [NamespaceSource()], values,
           InList([KindIn()], RelationKinds(), ")\n"), RelationKinds());
  }

  lemma ColumnsSelectIsQuery()
    ensures Query(ColumnsSelect(), RelationKinds())
  {
    hide PieceOk, InList, Part, Query, RelationKinds;
    AttributeColumnsPass();
    TypeColumnPasses();
    MoreAttributeColumnsPass();
    ClassSourcePasses();
    NamespaceSourcePasses();
    AttributeSourcePasses();
    EmptyIsPart();
    FirstPiece(AttributeColumns(), [], []);
    var ps := [AttributeColumns()];
    assert ps + [] == ps;
    ExtendText(ps, [], TypeColumn());
    ps := ps + [TypeColumn()];
    ExtendText(ps, [], MoreAttributeColumns());
    ps := ps + [MoreAttributeColumns()];
    ExtendText(ps, [], ClassSource());
    ps := ps + [ClassSource()];
    ExtendText(ps, [], NamespaceSource());
    ps := ps + [NamespaceSource()];
    ExtendText(ps, [], AttributeSource());
    ps := ps + [AttributeSource()];
    KindInIsPart();
    Extend(ps, [], InList([KindIn()], RelationKinds(), ")\n"), RelationKinds());
    assert [] + RelationKinds() == RelationKinds();
  }

  lemma EmptyIsPart()
    ensures Part([], [])
  {
  }

  lemma {:induction false} KindNamesAreUnmarked(kinds: seq<(string, string)>)
    requires forall k :: k in kinds ==> AllNeutral(k.0) && AllNeutral(k.1)
    ensures Unmarked(KindNames(kinds))
  {
    if kinds != [] {
      KindNamesAreUnmarked(kinds[1..]);
      NeutralHasNoMark(kinds[0].0);
      NeutralHasNoMark(kinds[0].1);
      UnmarkedConcat([kinds[0].0, kinds[0].1], KindNames(kinds[1..]));
    }
  }

  lemma NeutralValuesAreUnmarked(values: seq<string>)
    requires forall v :: v in values ==> AllNeutral(v)
    ensures Unmarked(values)
  {
    forall i | 0 <= i < |values|
      ensures !HasMark(values[i])
    {
      assert AllNeutral(values[i]);
      NeutralHasNoMark(values[i]);
    }
  }

  function SystemSchemas(): seq<string> {
    ["pg_catalog", "information_schema", "pg_toast%", "pg_temp_%"]
  }

  lemma SchemaValuesAreUnmarked()
    ensures Unmarked(RelationKinds()) && Unmarked(SystemSchemas()) && Unmarked(["."])
  {
    NeutralValuesAreUnmarked(RelationKinds());
    NeutralValuesAreUnmarked(SystemSchemas());
    NeutralValuesAreUnmarked(["."]);
  }

  lemma KindsAreNeutral()
    ensures forall k :: k in Kinds() ==> AllNeutral(k.0) && AllNeutral(k.1)
  {
    hide AllNeutral;
    LettersAreNeutral();
    LongNamesAreNeutral();
  }

  lemma LettersAreNeutral()
    ensures AllNeutral("r") && AllNeutral("p") && AllNeutral("v") && AllNeutral("m") && AllNeutral("f")
    ensures AllNeutral("table") && AllNeutral("view")
  {
  }

  lemma LongNamesAreNeutral()
    ensures AllNeutral("partitioned_table") && AllNeutral("materialized_view") && AllNeutral("foreign_table")
  {
  }

  lemma KindValuesAreUnmarked()
    ensures Unmarked(KindNames(Kinds()))
  {
    hide AllNeutral, Unmarked, Kinds, KindNames;
    KindsAreNeutral();
    KindNamesAreUnmarked(Kinds());
  }

  // -------------------------------------------------------------- the queries

  datatype ObjectPolicy = ObjectPolicy(allowAll: bool, unqualified: seq<string>, qualified: seq<string>)

  datatype ObjectQuery = ObjectQuery(
    schema: Option<string>, contains: Option<string>, kind: Option<string>, includeSystem: bool, offset: nat)

  function Given(value: Option<string>): seq<string> {
    if value.None? then [] else [value.value]
  }

  /** A condition that is there only when its value is given. */
  function Optional(text: Piece, value: Option<string>, end: Piece): seq<Piece> {
    if value.Some? then Clause(text, value.value, end) else []
  }

  lemma ExtendGiven(ps: seq<Piece>, vs: seq<string>, text: Piece, value: Option<string>, end: Piece)
    requires Query(ps, vs) && text.Fixed? && end.Fixed? && PieceOk(text) && PieceOk(end)
    ensures Query(if value.Some? then ps + Clause(text, value.value, end) else ps, vs + Given(value))
  {
    hide Query;
    if value.Some? {
      ClauseIsPart(text, value.value, end);
      Extend(ps, vs, Clause(text, value.value, end), [value.value]);
    } else {
      assert vs + Given(value) == vs;
    }
  }

  function SystemFilter(): seq<Piece> {
    Clause(SchemaIsNot(), SystemSchemas()[0], Gap("\n")) + Clause(SchemaIsNot(), SystemSchemas()[1], Gap("\n"))
    + Clause(SchemaNotLike(), SystemSchemas()[2], Gap("\n")) + Clause(SchemaNotLike(), SystemSchemas()[3], Gap("\n"))
  }

  lemma SystemFilterIsPart()
    ensures Part(SystemFilter(), SystemSchemas())
  {
    hide PieceOk, Part, Clause;
    var v := SystemSchemas();
    var nl := Gap("\n");
    assert PieceOk(nl) by {
      LineEndPasses();
    }
    ConditionTextsPass();
    forall k | 0 <= k < 4
      ensures Part(Clause(if k < 2 then SchemaIsNot() else SchemaNotLike(), v[k], nl), [v[k]])
    {
      ClauseIsPart(if k < 2 then SchemaIsNot() else SchemaNotLike(), v[k], nl);
    }
    var c0, c1 := Clause(SchemaIsNot(), v[0], nl), Clause(SchemaIsNot(), v[1], nl);
    var c2, c3 := Clause(SchemaNotLike(), v[2], nl), Clause(SchemaNotLike(), v[3], nl);
    Join(c0, [v[0]], c1, [v[1]]);
    Join(c0 + c1, [v[0]] + [v[1]], c2, [v[2]]);
    Join(c0 + c1 + c2, [v[0]] + [v[1]] + [v[2]], c3, [v[3]]);
    assert [v[0]] + [v[1]] + [v[2]] + [v[3]] == v;
  }

  lemma LineEndPasses()
    ensures PieceOk(Gap("\n")) && PieceOk(Gap(")\n")) && PieceOk(Gap(")"))
  {
    GapsPass();
  }

  function UnqualifiedFilter(names: seq<string>): seq<Piece> {
    if names == [] then [] else InList([LowerNameIn()], names, ")")
  }

  function QualifiedFilter(names: seq<string>): seq<Piece> {
    if names == [] then [] else InList(Clause(LowerSchema(), ".", DotNameIn()), names, ")")
  }

  /** `"  AND (" + " OR ".join(filters) + ")"` */
  function NameFilter(policy: ObjectPolicy): seq<Piece> {
    [FilterStart()] + UnqualifiedFilter(policy.unqualified)
    + (if policy.unqualified != [] && policy.qualified != [] then [Or()] else [])
    + QualifiedFilter(policy.qualified) + [Gap(")\n")]
  }

  function NameFilterValues(policy: ObjectPolicy): seq<string> {
    policy.unqualified + if policy.qualified == [] then [] else ["."] + policy.qualified
  }

  lemma FiltersAreParts(names: seq<string>)
    ensures Part(UnqualifiedFilter(names), names)
    ensures Part(QualifiedFilter(names), if names == [] then [] else ["."] + names)
  {
    hide PieceOk, Part, Clause, InList, GapOk;
    EmptyIsPart();
    FilterTextsPass();
    GapsPass();
    OnePiece(LowerNameIn());
    InListIsPart([LowerNameIn()], [], names, ")");
    assert [] + names == names;
    ClauseIsPart(LowerSchema(), ".", DotNameIn());
    InListIsPart(Clause(LowerSchema(), ".", DotNameIn()), ["."], names, ")");
  }

  lemma NameFilterIsPart(policy: ObjectPolicy)
    ensures Part(NameFilter(policy), NameFilterValues(policy))
  {
    hide PieceOk, Part, UnqualifiedFilter, QualifiedFilter;
    var a, b := UnqualifiedFilter(policy.unqualified), QualifiedFilter(policy.qualified);
    var av, bv := policy.unqualified, if policy.qualified == [] then [] else ["."] + policy.qualified;
    var or := if policy.unqualified != [] && policy.qualified != [] then [Or()] else [];
    FilterTextsPass();
    LineEndPasses();
    EmptyIsPart();
    OnePiece(FilterStart());
    OnePiece(Or());
    OnePiece(Gap(")\n"));
    FiltersAreParts(policy.unqualified);
    FiltersAreParts(policy.qualified);
    Join([FilterStart()], [], a, av);
    assert [] + av == av;
    Join([FilterStart()] + a, av, or, []);
    assert av + [] == av;
    Join([FilterStart()] + a + or, av, b, bv);
    Join([FilterStart()] + a + or + b, av + bv, [Gap(")\n")], []);
    assert av + bv + [] == av + bv;
  }

  /** What stands between the select part and the order of the objects query. */
  function ObjectConditions(policy: ObjectPolicy, q: ObjectQuery): seq<Piece> {
    (if q.includeSystem then [] else SystemFilter())
    + Optional(SchemaIs(), q.schema, Gap("\n")) + Optional(NameContains(), q.contains, IsFound())
    + Optional(KindIs(), q.kind, Gap("\n")) + if policy.allowAll then [] else NameFilter(policy)
  }

  /** The values a caller or the policy puts into the objects query. */
  function ObjectValues(policy: ObjectPolicy, q: ObjectQuery): seq<string> {
    Given(q.schema) + Given(q.contains) + Given(q.kind)
    + if policy.allowAll then [] else policy.unqualified + policy.qualified
  }

  /** All values of the query, in the order of the text. */
  function AllObjectValues(policy: ObjectPolicy, q: ObjectQuery): seq<string> {
    KindNames(Kinds()) + RelationKinds() + (if q.includeSystem then [] else SystemSchemas())
    + Given(q.schema) + Given(q.contains) + Given(q.kind) + if policy.allowAll then [] else NameFilterValues(policy)
  }

  lemma FilterValuesDecide(policy: ObjectPolicy)
    ensures Unmarked(NameFilterValues(policy)) <==> Unmarked(policy.unqualified + policy.qualified)
  {
    hide Unmarked;
    SchemaValuesAreUnmarked();
    UnmarkedConcat(policy.unqualified, policy.qualified);
    UnmarkedConcat(policy.unqualified, if policy.qualified == [] then [] else ["."] + policy.qualified);
    UnmarkedConcat(["."], policy.qualified);
  }

  /** The values the gateway puts in itself never have a mark. */
  lemma GivenValuesDecide(policy: ObjectPolicy, q: ObjectQuery)
    ensures Unmarked(AllObjectValues(policy, q)) <==> Unmarked(ObjectValues(policy, q))
  {
    hide Unmarked, KindNames, Kinds, RelationKinds, SystemSchemas, NameFilterValues;
    var own := KindNames(Kinds()) + RelationKinds();
    var schemas := if q.includeSystem then [] else SystemSchemas();
    var given := Given(q.schema) + Given(q.contains) + Given(q.kind);
    var filter := if policy.allowAll then [] else NameFilterValues(policy);
    var names := if policy.allowAll then [] else policy.unqualified + policy.qualified;
    KindValuesAreUnmarked();
    SchemaValuesAreUnmarked();
    EmptyIsUnmarked();
    UnmarkedConcat(KindNames(Kinds()), RelationKinds());
    UnmarkedConcat(own, schemas);
    UnmarkedConcat(own + schemas, given);
    UnmarkedConcat(own + schemas + given, filter);
    UnmarkedConcat(given, names);
    FilterValuesDecide(policy);
    assert own + schemas + Given(q.schema) + Given(q.contains) + Given(q.kind) == own + schemas + given;
    assert AllObjectValues(policy, q) == own + schemas + given + filter;
    assert ObjectValues(policy, q) == given + names;
  }

  lemma AppendNothing(values: seq<string>)
    ensures values + [] == values
  {
  }

  lemma EmptyIsUnmarked()
    ensures Unmarked([])
  {
  }

  lemma AppendNone(ps: seq<Piece>)
    ensures ps + [] == ps
  {
  }

  lemma AppendParts(ps: seq<Piece>, qs: seq<Piece>, rs: seq<Piece>)
    ensures ps + qs + rs == ps + (qs + rs) && qs + [] == qs
  {
  }

  lemma AppendOptional(ps: seq<Piece>, qs: seq<Piece>, text: Piece, value: Option<string>, end: Piece)
    ensures ps + (qs + Optional(text, value, end))
            == if value.Some? then ps + qs + Clause(text, value.value, end) else ps + qs
  {
    AppendParts(ps, qs, Optional(text, value, end));
    AppendNone(ps + qs);
  }

  lemma ConditionsAre(policy: ObjectPolicy, q: ObjectQuery, ps: seq<Piece>)
    requires ps == (if q.includeSystem then [] else SystemFilter())
                   + Optional(SchemaIs(), q.schema, Gap("\n")) + Optional(NameContains(), q.contains, IsFound())
                   + Optional(KindIs(), q.kind, Gap("\n")) + if policy.allowAll then [] else NameFilter(policy)
    ensures ps == ObjectConditions(policy, q)
  {
  }

  /** `_build_objects_query`. A policy that allows no object yields no query. Otherwise every given
      value is embedded, and the bridge accepts the text exactly when none of them has a mark. */
  method BuildObjectsQuery(policy: ObjectPolicy, q: ObjectQuery) returns (r: Option<seq<Piece>>)
    ensures r.None? <==> !policy.allowAll && policy.unqualified == [] && policy.qualified == []
    ensures r.Some? ==>
              forall ct :: AsciiLetters(ct) ==>
                (ReadOnly(ct, QueryText(r.value, Some(q.offset))) <==> Unmarked(ObjectValues(policy, q)))
    ensures r.Some? ==> Query(r.value, AllObjectValues(policy, q))
    ensures r.Some? ==> r.value == ObjectSelect() + ObjectConditions(policy, q) + [ObjectOrder()]
  {
    hide Optional, ObjectConditions, PieceOk, Part, Query, ObjectSelect, SystemFilter, Clause, NameFilter, NameFilterValues,
      KindNames, Kinds, Unmarked, ReadOnly,
      QueryText, RelationKinds, SystemSchemas;
    var clauses := ObjectSelect();
    ghost var conditions: seq<Piece> := [];
    AppendNone(clauses);
    ghost var values := KindNames(Kinds()) + RelationKinds();
    ObjectSelectIsQuery();
    ConditionTextsPass();
    SearchTextsPass();
    LineEndPasses();
    if !q.includeSystem {
      SystemFilterIsPart();
      Extend(clauses, values, SystemFilter(), SystemSchemas());
      clauses := clauses + SystemFilter();
    }
    conditions := if q.includeSystem then [] else SystemFilter();
    AppendNothing(values);
    values := values + if q.includeSystem then [] else SystemSchemas();
    ExtendGiven(clauses, values, SchemaIs(), q.schema, Gap("\n"));
    if q.schema.Some? {
      clauses := clauses + Clause(SchemaIs(), q.schema.value, Gap("\n"));
    }
    AppendOptional(ObjectSelect(), conditions, SchemaIs(), q.schema, Gap("\n"));
    conditions := conditions + Optional(SchemaIs(), q.schema, Gap("\n"));
    values := values + Given(q.schema);
    ExtendGiven(clauses, values, NameContains(), q.contains, IsFound());
    if q.contains.Some? {
      clauses := clauses + Clause(NameContains(), q.contains.value, IsFound());
    }
    AppendOptional(ObjectSelect(), conditions, NameContains(), q.contains, IsFound());
    conditions := conditions + Optional(NameContains(), q.contains, IsFound());
    values := values + Given(q.contains);
    ExtendGiven(clauses, values, KindIs(), q.kind, Gap("\n"));
    if q.kind.Some? {
      clauses := clauses + Clause(KindIs(), q.kind.value, Gap("\n"));
    }
    AppendOptional(ObjectSelect(), conditions, KindIs(), q.kind, Gap("\n"));
    conditions := conditions + Optional(KindIs(), q.kind, Gap("\n"));
    values := values + Given(q.kind);
    AppendNothing(values);
    if !policy.allowAll {
      if policy.unqualified == [] && policy.qualified == [] {
        return None;
      }
      NameFilterIsPart(policy);
      Extend(clauses, values, NameFilter(policy), NameFilterValues(policy));
      clauses := clauses + NameFilter(policy);
    }
    AppendParts(ObjectSelect(), conditions, NameFilter(policy));
    conditions := conditions + if policy.allowAll then [] else NameFilter(policy);
    values := values + if policy.allowAll then [] else NameFilterValues(policy);
    OrderTextsPass();
    ExtendText(clauses, values, ObjectOrder());
    clauses := clauses + [ObjectOrder()];
    assert values == AllObjectValues(policy, q);
    assert conditions == ObjectConditions(policy, q) by {
      ConditionsAre(policy, q, conditions);
    }
    forall ct | AsciiLetters(ct)
      ensures ReadOnly(ct, QueryText(clauses, Some(q.offset))) <==> Unmarked(ObjectValues(policy, q))
    {
      QueryAcceptance(ct, clauses, values, Some(q.offset));
      GivenValuesDecide(policy, q);
    }
    return Some(clauses);
  }

  /** `_load_columns` */
  method BuildColumnsQuery(schema: string, name: string, contains: Option<string>, offset: nat) returns (r: seq<Piece>)
    ensures Query(r, RelationKinds() + [schema, name] + Given(contains))
    ensures r == ColumnsSelect() + Clause(SchemaIs(), schema, Gap("\n")) + Clause(NameIs(), name, Gap("\n")) + [IsUserColumn()]
                 + Optional(ColumnContains(), contains, IsFound()) + [ColumnOrder()]
    ensures forall ct :: AsciiLetters(ct) ==>
              (ReadOnly(ct, QueryText(r, Some(offset))) <==> Unmarked([schema, name] + Given(contains)))
  {
    hide PieceOk, Part, Query, ColumnsSelect, Clause, Unmarked, ReadOnly, QueryText, RelationKinds;
    ConditionTextsPass();
    SearchTextsPass();
    LineEndPasses();
    UserColumnTextPasses();
    OrderTextsPass();
    ColumnsSelectIsQuery();
    ghost var own := RelationKinds();
    var clauses := ColumnsSelect();
    ExtendGiven(clauses, own, SchemaIs(), Some(schema), Gap("\n"));
    clauses := clauses + Clause(SchemaIs(), schema, Gap("\n"));
    ExtendGiven(clauses, own + [schema], NameIs(), Some(name), Gap("\n"));
    clauses := clauses + Clause(NameIs(), name, Gap("\n"));
    ghost var values := own + [schema] + [name];
    ExtendText(clauses, values, IsUserColumn());
    clauses := clauses + [IsUserColumn()];
    ExtendGiven(clauses, values, ColumnContains(), contains, IsFound());
    if contains.Some? {
      clauses := clauses + Clause(ColumnContains(), contains.value, IsFound());
    }
    values := values + Given(contains);
    ExtendText(clauses, values, ColumnOrder());
    clauses := clauses + [ColumnOrder()];
    assert values == own + ([schema, name] + Given(contains));
    assert own + [schema, name] + Given(contains) == values;
    DecidedByCaller(clauses, own, [schema, name] + Given(contains), Some(offset));
    return clauses;
  }

  /** `_resolve_object` */
  method BuildResolveQuery(schema: string, name: string) returns (r: seq<Piece>)
    ensures Query(r, KindNames(Kinds()) + RelationKinds() + [schema, name])
    ensures r == ObjectSelect() + Clause(SchemaIs(), schema, Gap("\n")) + [NameIs(), Lit(name)]
    ensures forall ct :: AsciiLetters(ct) ==> (ReadOnly(ct, QueryText(r, None)) <==> Unmarked([schema, name]))
  {
    hide PieceOk, Part, Query, ObjectSelect, Clause, Unmarked, ReadOnly, QueryText, RelationKinds, KindNames, Kinds;
    ConditionTextsPass();
    LineEndPasses();
    ObjectSelectIsQuery();
    ghost var own := KindNames(Kinds()) + RelationKinds();
    var clauses := ObjectSelect();
    ExtendGiven(clauses, own, SchemaIs(), Some(schema), Gap("\n"));
    clauses := clauses + Clause(SchemaIs(), schema, Gap("\n"));
    ghost var named := own + [schema];
    ExtendText(clauses, named, NameIs());
    clauses := clauses + [NameIs()];
    ValueListIsPart([name]);
    assert ValueList([name]) == [Lit(name)];
    Extend(clauses, named, [Lit(name)], [name]);
    clauses := clauses + [Lit(name)];
    assert named + [name] == own + [schema, name];
    DecidedByCaller(clauses, own, [schema, name], None);
    return clauses;
  }

  lemma DecidedByCaller(ps: seq<Piece>, own: seq<string>, given: seq<string>, offset: Option<nat>)
    requires Query(ps, own + given)
    requires own == RelationKinds() || own == KindNames(Kinds()) + RelationKinds()
    ensures forall ct :: AsciiLetters(ct) ==> (ReadOnly(ct, QueryText(ps, offset)) <==> Unmarked(given))
  {
    hide Unmarked, ReadOnly, QueryText, Kinds, KindNames, RelationKinds;
    KindValuesAreUnmarked();
    SchemaValuesAreUnmarked();
    UnmarkedConcat(KindNames(Kinds()), RelationKinds());
    UnmarkedConcat(own, given);
    forall ct | AsciiLetters(ct)
      ensures ReadOnly(ct, QueryText(ps, offset)) <==> Unmarked(given)
    {
      QueryAcceptance(ct, ps, own + given, offset);
    }
  }

  /** A name with two dashes in it makes the bridge refuse any query that embeds it, wherever it stands,
      with or without an offset; so also each query built above that embeds it. */
  lemma DashedNameIsRefused(ct: Letters, ps: seq<Piece>, values: seq<string>, i: nat, offset: Option<nat>)
    requires AsciiLetters(ct) && Query(ps, values) && i < |values| && values[i] == "a--b"
    ensures !ReadOnly(ct, QueryText(ps, offset))
  {
    QueryAcceptance(ct, ps, values, offset);
    assert MarkAt(values[i], 1);
    assert HasMark(values[i]);
  }
}
