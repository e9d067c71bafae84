/** The words of the gateway's own query texts, and the words the bridge forbids. */
module SqlVocabulary {
  const FORBIDDEN: seq<string> := [
    "alter", "analyze", "call", "comment", "copy", "create", "delete", "do", "drop", "execute", "grant", "insert",
    "into", "lock", "merge", "operator", "refresh", "reindex", "revoke", "set", "truncate", "update", "vacuum"]

  predicate LowerWordChar(c: char) {
    'a' <= c <= 'z' || '0' <= c <= '9' || c == '_'
  }

  /** A word in small letters that the bridge lets pass. */
  predicate WordOk(w: string) {
    |w| > 0 && (forall i :: 0 <= i < |w| ==> LowerWordChar(w[i])) && w !in FORBIDDEN
  }

  /** Told apart from every forbidden word by its length and its first three letters. */
  predicate ToldApart(w: string) {
    match |w|
    case 0 => false
    case 2 => w[0] != 'd'
    case 3 => w[0] != 's'
    case 4 => w[0] !in {'d', 'i'} && (w[0] in {'c', 'l'} ==> w[1] != 'o') && (w[0] == 'c' ==> w[2] != 'l')
    case 5 => w[0] !in {'a', 'g', 'm'}
    case 6 => w[0] !in {'c', 'd', 'i', 'r', 'u', 'v'}
    case 7 => w[0] !in {'c', 'e'} && (w[0] == 'a' ==> w[1] != 'n') && (w[0] == 'r' ==> w[2] !in {'f', 'i'})
    case 8 => w[0] !in {'o', 't'}
    case _ => true
  }

  lemma ToldApartIsAllowed(w: string)
    requires ToldApart(w)
    ensures w !in FORBIDDEN
  {
    assert forall f :: f in FORBIDDEN ==> !ToldApart(f);
  }

  lemma NumbersAreAllowed(w: string)
    requires |w| > 0 && '0' <= w[0] <= '9'
    ensures w !in FORBIDDEN
  {
    assert forall f :: f in FORBIDDEN ==> f[0] >= 'a';
  }

  lemma PassesWhenToldApart(w: string)
    requires ToldApart(w) && forall i :: 0 <= i < |w| ==> LowerWordChar(w[i])
    ensures WordOk(w)
  {
    ToldApartIsAllowed(w);
  }

  lemma SelectWords()
    ensures WordOk("select") && WordOk("as") && WordOk("case") && WordOk("when") && WordOk("then") && WordOk("end")
  {
    hide WordOk;
    PassesWhenToldApart("select");
    PassesWhenToldApart("as");
    PassesWhenToldApart("case");
    PassesWhenToldApart("when");
    PassesWhenToldApart("then");
    PassesWhenToldApart("end");
  }

  lemma SourceWords()
    ensures WordOk("from") && WordOk("join") && WordOk("on") && WordOk("where") && WordOk("in") && WordOk("and") && WordOk("not")
  {
    hide WordOk;
    PassesWhenToldApart("from");
    PassesWhenToldApart("join");
    PassesWhenToldApart("on");
    PassesWhenToldApart("where");
    PassesWhenToldApart("in");
    PassesWhenToldApart("and");
    PassesWhenToldApart("not");
  }

  lemma FilterWords()
    ensures WordOk("like") && WordOk("strpos") && WordOk("lower") && WordOk("or") && WordOk("order") && WordOk("by") && WordOk("offset") && WordOk("0")
  {
    hide WordOk;
    PassesWhenToldApart("like");
    PassesWhenToldApart("strpos");
    PassesWhenToldApart("lower");
    PassesWhenToldApart("or");
    PassesWhenToldApart("order");
    PassesWhenToldApart("by");
    PassesWhenToldApart("offset");
    PassesWhenToldApart("0");
  }

  lemma ObjectWords()
    ensures WordOk("n") && WordOk("nspname") && WordOk("schema_name") && WordOk("c") && WordOk("relname") && WordOk("object_name")
  {
    hide WordOk;
    PassesWhenToldApart("n");
    PassesWhenToldApart("nspname");
    PassesWhenToldApart("schema_name");
    PassesWhenToldApart("c");
    PassesWhenToldApart("relname");
    PassesWhenToldApart("object_name");
  }

  lemma CatalogWords()
    ensures WordOk("relkind") && WordOk("object_kind") && WordOk("pg_catalog") && WordOk("pg_class") && WordOk("pg_namespace")
  {
    hide WordOk;
    PassesWhenToldApart("relkind");
    PassesWhenToldApart("object_kind");
    PassesWhenToldApart("pg_catalog");
    PassesWhenToldApart("pg_class");
    PassesWhenToldApart("pg_namespace");
  }

  lemma JoinWords()
    ensures WordOk("oid") && WordOk("relnamespace") && WordOk("a") && WordOk("attname") && WordOk("attnum") && WordOk("attrelid")
  {
    hide WordOk;
    PassesWhenToldApart("oid");
    PassesWhenToldApart("relnamespace");
    PassesWhenToldApart("a");
    PassesWhenToldApart("attname");
    PassesWhenToldApart("attnum");
    PassesWhenToldApart("attrelid");
  }

  lemma TypeWords()
    ensures WordOk("column_name") && WordOk("format_type") && WordOk("atttypid") && WordOk("atttypmod")
  {
    hide WordOk;
    PassesWhenToldApart("column_name");
    PassesWhenToldApart("format_type");
    PassesWhenToldApart("atttypid");
    PassesWhenToldApart("atttypmod");
  }

  lemma ColumnWords()
    ensures WordOk("data_type") && WordOk("attnotnull") && WordOk("nullable") && WordOk("attisdropped") && WordOk("ordinal_position") && WordOk("pg_attribute")
  {
    hide WordOk;
    PassesWhenToldApart("data_type");
    PassesWhenToldApart("attnotnull");
    PassesWhenToldApart("nullable");
    PassesWhenToldApart("attisdropped");
    PassesWhenToldApart("ordinal_position");
    PassesWhenToldApart("pg_attribute");
  }

  /** Every word of the gateway's queries is one the bridge lets pass. */
  ghost predicate AllKnown() {
    && WordOk("select") && WordOk("as") && WordOk("case") && WordOk("when") && WordOk("then") && WordOk("end")
    && WordOk("from") && WordOk("join") && WordOk("on") && WordOk("where") && WordOk("in") && WordOk("and")
    && WordOk("not") && WordOk("like") && WordOk("strpos") && WordOk("lower") && WordOk("or") && WordOk("order")
    && WordOk("by") && WordOk("offset") && WordOk("0") && WordOk("n") && WordOk("nspname")
    && WordOk("schema_name") && WordOk("c") && WordOk("relname") && WordOk("object_name") && WordOk("relkind")
    && WordOk("object_kind") && WordOk("pg_catalog") && WordOk("pg_class") && WordOk("pg_namespace")
    && WordOk("oid") && WordOk("relnamespace") && WordOk("a") && WordOk("attname") && WordOk("attnum")
    && WordOk("attrelid") && WordOk("column_name") && WordOk("format_type") && WordOk("atttypid")
    && WordOk("atttypmod") && WordOk("data_type") && WordOk("attnotnull") && WordOk("nullable")
    && WordOk("attisdropped") && WordOk("ordinal_position") && WordOk("pg_attribute")
  }

  lemma KnownWords()
    ensures AllKnown()
  {
    hide WordOk;
    SelectWords();
    SourceWords();
    FilterWords();
    ObjectWords();
    CatalogWords();
    JoinWords();
    TypeWords();
    ColumnWords();
  }
}
