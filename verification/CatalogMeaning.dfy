/** What the catalogue queries ask for: their conditions, read word by word as SQL reads them, against the
    relations of a catalogue. */
module CatalogMeaning {
  import opened Common
  import opened MetadataQueries
  import opened CatalogQueries

  /** A relation as `pg_class` joined with `pg_namespace` has it. */
  datatype Relation = Relation(schema: string, name: string, kind: string)

  /** SQL's `LIKE`: `%` stands for any text, `_` for any character. */
  predicate Like(s: string, pattern: string)
    decreases |s| + |pattern|
  {
    if pattern == [] then s == []
    else if pattern[0] == '%' then Like(s, pattern[1..]) || (s != [] && Like(s[1..], pattern))
    else s != [] && (pattern[0] == '_' || pattern[0] == s[0]) && Like(s[1..], pattern[1..])
  }

  /** The text starts like the prefix, in which an underscore stands for any character. */
  predicate StartsLike(s: string, prefix: string) {
    |prefix| <= |s| && forall i :: 0 <= i < |prefix| ==> prefix[i] == '_' || s[i] == prefix[i]
  }

  lemma {:induction false} LikePrefix(s: string, prefix: string)
    requires '%' !in prefix
    ensures Like(s, prefix + "%") <==> StartsLike(s, prefix)
  {
    if prefix == [] {
      assert prefix + "%" == "%" && "%"[1..] == [];
      AnythingIsLike(s);
    } else {
      assert (prefix + "%")[0] == prefix[0] && (prefix + "%")[1..] == prefix[1..] + "%";
      if s != [] {
        LikePrefix(s[1..], prefix[1..]);
        assert forall i :: 1 <= i < |prefix| && i < |s| ==> s[i] == s[1..][i - 1] && prefix[i] == prefix[1..][i - 1];
        assert forall i :: 0 <= i < |prefix| - 1 && i < |s| - 1 ==> s[1..][i] == s[i + 1] && prefix[1..][i] == prefix[i + 1];
      }
    }
  }

  lemma {:induction false} AnythingIsLike(s: string)
    ensures Like(s, "%")
  {
    assert "%"[1..] == [];
    if s != [] {
      AnythingIsLike(s[1..]);
    }
  }

  // ------------------------------------------------------------- conditions

  /** `n` names the schema's row, `c` the relation's. */
  function Column(r: Relation, alias: string, word: string): Option<string> {
    if alias == "n" && word == "nspname" then Some(r.schema)
    else if alias == "c" && word == "relname" then Some(r.name)
    else if alias == "c" && word == "relkind" then Some(r.kind)
    else None
  }

  /** The column that a text names last. */
  function Operand(es: seq<Lexeme>, r: Relation): Option<string> {
    if |es| < 2 then None
    else
      var a, w := es[|es| - 2], es[|es| - 1];
      var column := Column(r, a.word, w.word);
      if a.gap == "." && column.Some? then column else Operand(es[..|es| - 1], r)
  }

  predicate Has(es: seq<Lexeme>, word: string) {
    exists i :: 0 <= i < |es| && es[i].word == word
  }

  /** `AND <text><value><end>`: equal, unequal, not like, or found within, up to lower case. */
  predicate Holds(lower: string -> string, text: Piece, value: string, end: Piece, r: Relation) {
    && text.Fixed? && end.Fixed? && |text.words| > 0 && text.words[0].word == "and"
    && var es := text.words;
       var x := Operand(es, r);
       && x.Some?
       && if Has(es, "strpos") then
            end.lead == ")) > " && end.words == [L("0", "\n")] && Has(es, "lower") && Contains(lower(x.value), lower(value))
          else if Has(es, "like") then
            if Has(es, "not") then !Like(x.value, value) else Like(x.value, value)
          else if es[|es| - 1].gap == " = " then x.value == value
          else es[|es| - 1].gap == " <> " && x.value != value
  }

  predicate HoldsIfGiven(lower: string -> string, text: Piece, value: Option<string>, end: Piece, r: Relation) {
    value.Some? ==> Holds(lower, text, value.value, end, r)
  }

  /** `<text> IN (<values>)`: one column, or two joined by a value; in lower case if the text says so. */
  predicate Among(lower: string -> string, text: seq<Piece>, values: seq<string>, r: Relation) {
    && |text| > 0 && (forall p :: p in text ==> p.Fixed? || p.Lit?)
    && var last := text[|text| - 1];
       && last.Fixed? && |last.words| > 0 && last.words[|last.words| - 1] == U("in", " (")
       && text[0].Fixed?
       && var x, y := Operand(text[0].words, r), Operand(last.words, r);
          && x.Some? && y.Some?
          && (|text| == 1
              || (|text| == 3 && text[1].Lit? && last.lead == " || " && |text[0].words| > 0
                  && text[0].words[|text[0].words| - 1].gap == " || "))
          && var joined := if |text| == 1 then x.value else x.value + (if text[1].Lit? then text[1].value else "") + y.value;
             (if Has(text[0].words, "lower") then lower(joined) else joined) in values
  }

  // --------------------------------------------------- each condition's meaning

  lemma SchemaConditions(lower: string -> string, v: string, r: Relation)
    ensures Holds(lower, SchemaIs(), v, Gap("\n"), r) <==> r.schema == v
    ensures Holds(lower, SchemaIsNot(), v, Gap("\n"), r) <==> r.schema != v
    ensures Holds(lower, SchemaNotLike(), v, Gap("\n"), r) <==> !Like(r.schema, v)
  {
    var a, b, c := SchemaIs().words, SchemaIsNot().words, SchemaNotLike().words;
    assert a[2].word == "nspname" && b[2].word == "nspname";
    assert c[..4][..3] == c[..3] && c[4].word == "like" && c[3].word == "not";
    assert Operand(c, r) == Operand(c[..4], r) == Operand(c[..3], r);
  }

  lemma NameConditions(lower: string -> string, v: string, r: Relation)
    ensures Holds(lower, NameIs(), v, Gap("\n"), r) <==> r.name == v
    ensures Holds(lower, KindIs(), v, Gap("\n"), r) <==> r.kind == v
    ensures Holds(lower, NameContains(), v, IsFound(), r) <==> Contains(lower(r.name), lower(v))
  {
    var c := NameContains().words;
    assert c[1].word == "strpos" && c[2].word == "lower";
    assert c[..5][4].word == "relname" && c[..5][3] == L("c", ".");
    assert Operand(c, r) == Operand(c[..5], r);
  }

  lemma ListConditions(lower: string -> string, values: seq<string>, r: Relation)
    ensures Among(lower, [KindIn()], values, r) <==> r.kind in values
    ensures Among(lower, [LowerNameIn()], values, r) <==> lower(r.name) in values
    ensures Among(lower, Clause(LowerSchema(), ".", DotNameIn()), values, r) <==> lower(r.schema + "." + r.name) in values
  {
    var k, n, s, d := KindIn().words, LowerNameIn().words, LowerSchema().words, DotNameIn().words;
    assert k[..3][2].word == "relkind" && Operand(k, r) == Operand(k[..3], r);
    assert n[0].word == "lower" && n[..3][2].word == "relname" && Operand(n, r) == Operand(n[..3], r);
    assert s[0].word == "lower" && d[..2][1].word == "relname" && Operand(d, r) == Operand(d[..2], r);
    assert !Has(k, "lower");
  }

  // ------------------------------------------------------------- whole queries

  /** The policy's condition: its alternatives, joined by `OR` in parentheses. */
  predicate PolicyHolds(lower: string -> string, policy: ObjectPolicy, r: Relation) {
    || policy.allowAll
    || (policy.unqualified != [] && Among(lower, [LowerNameIn()], policy.unqualified, r))
    || (policy.qualified != [] && Among(lower, Clause(LowerSchema(), ".", DotNameIn()), policy.qualified, r))
  }

  /** The relation meets every condition of the objects query. */
  predicate Selected(lower: string -> string, policy: ObjectPolicy, q: ObjectQuery, r: Relation) {
    && Among(lower, [KindIn()], RelationKinds(), r)
    && (!q.includeSystem ==>
          && Holds(lower, SchemaIsNot(), SystemSchemas()[0], Gap("\n"), r) && Holds(lower, SchemaIsNot(), SystemSchemas()[1], Gap("\n"), r)
          && Holds(lower, SchemaNotLike(), SystemSchemas()[2], Gap("\n"), r) && Holds(lower, SchemaNotLike(), SystemSchemas()[3], Gap("\n"), r))
    && HoldsIfGiven(lower, SchemaIs(), q.schema, Gap("\n"), r)
    && HoldsIfGiven(lower, NameContains(), q.contains, IsFound(), r)
    && HoldsIfGiven(lower, KindIs(), q.kind, Gap("\n"), r)
    && PolicyHolds(lower, policy, r)
  }

  /** What the objects query lists: tables, views and the like, outside the system schemas unless asked for,
      of the given schema, with the given text in the name and of the given kind, that the policy names. The
      underscores of the system patterns stand for any character. */
  lemma ObjectsQueryLists(lower: string -> string, policy: ObjectPolicy, q: ObjectQuery, r: Relation)
    ensures Selected(lower, policy, q, r) <==>
              && r.kind in {"r", "p", "v", "m", "f"}
              && (q.includeSystem || (r.schema != "pg_catalog" && r.schema != "information_schema"
                                      && !StartsLike(r.schema, "pg_toast") && !StartsLike(r.schema, "pg_temp_")))
              && (q.schema.Some? ==> r.schema == q.schema.value)
              && (q.contains.Some? ==> Contains(lower(r.name), lower(q.contains.value)))
              && (q.kind.Some? ==> r.kind == q.kind.value)
              && (policy.allowAll || lower(r.name) in policy.unqualified || lower(r.schema + "." + r.name) in policy.qualified)
  {
    hide Holds, Among, Like, StartsLike, Contains;
    ListConditions(lower, RelationKinds(), r);
    ListConditions(lower, policy.unqualified, r);
    ListConditions(lower, policy.qualified, r);
    forall v: string
      ensures Holds(lower, SchemaIsNot(), v, Gap("\n"), r) <==> r.schema != v
      ensures Holds(lower, SchemaNotLike(), v, Gap("\n"), r) <==> !Like(r.schema, v)
      ensures Holds(lower, SchemaIs(), v, Gap("\n"), r) <==> r.schema == v
      ensures Holds(lower, NameContains(), v, IsFound(), r) <==> Contains(lower(r.name), lower(v))
      ensures Holds(lower, KindIs(), v, Gap("\n"), r) <==> r.kind == v
    {
      SchemaConditions(lower, v, r);
      NameConditions(lower, v, r);
    }
    LikePrefix(r.schema, "pg_toast");
    LikePrefix(r.schema, "pg_temp_");
    assert "pg_toast" + "%" == "pg_toast%" && "pg_temp_" + "%" == "pg_temp_%";
  }

  /** The check of a single object in the gateway, with Python's case folding. */
  predicate Permitted(fold: string -> string, policy: ObjectPolicy, schema: string, name: string) {
    policy.allowAll || fold(name) in policy.unqualified || fold(schema + "." + name) in policy.qualified
  }

  /** Listing and permission agree on every relation whose names SQL's lower case and Python's case folding
      treat alike. */
  lemma ListedExactlyWhenPermitted(lower: string -> string, fold: string -> string, policy: ObjectPolicy, q: ObjectQuery, r: Relation)
    requires lower(r.name) == fold(r.name) && lower(r.schema + "." + r.name) == fold(r.schema + "." + r.name)
    ensures Selected(lower, policy, q, r) <==>
              Selected(lower, policy.(allowAll := true), q, r) && Permitted(fold, policy, r.schema, r.name)
  {
    hide Selected;
    ObjectsQueryLists(lower, policy, q, r);
    ObjectsQueryLists(lower, policy.(allowAll := true), q, r);
  }

  /** Otherwise not: a policy that names the folded name alone permits the object, and never lists it. */
  lemma FoldedNameIsNeverListed(lower: string -> string, fold: string -> string, q: ObjectQuery, r: Relation)
    requires lower(r.name) != fold(r.name)
    ensures var policy := ObjectPolicy(false, [fold(r.name)], []);
            Permitted(fold, policy, r.schema, r.name) && !Selected(lower, policy, q, r)
  {
    hide Selected;
    ObjectsQueryLists(lower, ObjectPolicy(false, [fold(r.name)], []), q, r);
  }

  /** The query that resolves one object finds a relation exactly when it has that schema and name. */
  lemma ResolveQueryFinds(lower: string -> string, schema: string, name: string, r: Relation)
    ensures Among(lower, [KindIn()], RelationKinds(), r) && Holds(lower, SchemaIs(), schema, Gap("\n"), r)
            && Holds(lower, NameIs(), name, Gap("\n"), r)
            <==> r.kind in {"r", "p", "v", "m", "f"} && r.schema == schema && r.name == name
  {
    ListConditions(lower, RelationKinds(), r);
    SchemaConditions(lower, schema, r);
    NameConditions(lower, name, r);
  }

  // ------------------------------------------------------- what is shown of them

  lemma {:induction false} WordsAt(es: seq<Lexeme>)
    ensures |Words(es)| == |es| && forall i :: 0 <= i < |es| ==> Words(es)[i] == es[i].word
  {
    if es != [] {
      WordsAt(es[1..]);
    }
  }

  ghost predicate Reads(p: Piece, words: seq<string>) {
    p.Fixed? && Words(p.words) == words
  }

  /** The parts that stand for no condition on a relation, in their words. */
  lemma WordsOfParts()
    ensures Reads(FilterStart(), ["and"]) && FilterStart().words[0].gap == " (" && Reads(Or(), ["or"])
    ensures Reads(ObjectOrder(), ["order", "by", "n", "nspname", "c", "relname", "offset"])
    ensures Reads(ColumnOrder(), ["order", "by", "a", "attnum", "offset"])
    ensures Reads(IsUserColumn(), ["and", "a", "attnum", "0", "and", "not", "a", "attisdropped"]) && IsUserColumn().words[2].gap == " > "
    ensures Reads(ColumnContains(), ["and", "strpos", "lower", "a", "attname", "lower"])
  {
    hide Words;
    WordsAt(FilterStart().words);
    WordsAt(Or().words);
    WordsAt(ObjectOrder().words);
    WordsAt(ColumnOrder().words);
    WordsAt(IsUserColumn().words);
    WordsAt(ColumnContains().words);
  }

  /** What the queries show: schema, name and kind of a relation; name, type, nullability and position of a
      column. */
  lemma WordsOfSelects()
    ensures Reads(ObjectColumns(), ["select", "n", "nspname", "as", "schema_name"])
    ensures Reads(NameColumns(), ["c", "relname", "as", "object_name", "case", "c", "relkind", "when"])
    ensures Reads(CaseEnd(), ["end", "as", "object_kind"])
    ensures Reads(AttributeColumns(), ["select", "a", "attname", "as", "column_name"])
    ensures Reads(TypeColumn(), ["pg_catalog", "format_type", "a", "atttypid", "a", "atttypmod", "as", "data_type"])
    ensures Reads(MoreAttributeColumns(), ["not", "a", "attnotnull", "as", "nullable", "a", "attnum", "as", "ordinal_position"])
  {
    hide Words;
    WordsAt(ObjectColumns().words);
    WordsAt(NameColumns().words);
    WordsAt(CaseEnd().words);
    WordsAt(AttributeColumns().words);
    WordsAt(TypeColumn().words);
    WordsAt(MoreAttributeColumns().words);
  }

  /** Where they look: relations, joined with their schemas and their columns. */
  lemma WordsOfSources()
    ensures Reads(ClassSource(), ["from", "pg_catalog", "pg_class", "as", "c"])
    ensures Reads(NamespaceSource(), ["join", "pg_catalog", "pg_namespace", "as", "n", "on", "n", "oid", "c", "relnamespace"])
    ensures Reads(AttributeSource(), ["join", "pg_catalog", "pg_attribute", "as", "a", "on", "a", "attrelid", "c", "oid"])
    ensures Reads(KindIn(), ["where", "c", "relkind", "in"])
  {
    hide Words;
    WordsAt(ClassSource().words);
    WordsAt(NamespaceSource().words);
    WordsAt(AttributeSource().words);
    WordsAt(KindIn().words);
  }

  /** Each kind is shown by its name. */
  lemma KindsAreNamed()
    ensures KindNames(Kinds()) == ["r", "table", "p", "partitioned_table", "v", "view", "m", "materialized_view", "f", "foreign_table"]
  {
  }
}
