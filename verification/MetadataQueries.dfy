/** The metadata queries of the gateway against the read-only check of the bridge: which of the
    queries that the gateway builds does the bridge accept? */
module MetadataQueries {
  import opened Common
  import opened Qualification
  import opened SqlText
  import opened SqlVocabulary
  import Decimal

  // ------------------------------------------------------ the read-only check

  /** A statement separator, a dollar quote or parameter, or one end of a comment. */
  predicate MarkAt(s: string, i: nat) {
    && i < |s|
    && (s[i] == ';' || s[i] == '$'
        || (i + 1 < |s| && ((s[i] == '-' && s[i + 1] == '-') || (s[i] == '/' && s[i + 1] == '*')
                            || (s[i] == '*' && s[i + 1] == '/'))))
  }

  predicate HasMark(s: string) {
    exists i :: 0 <= i < |s| && MarkAt(s, i)
  }

  predicate ReadOnlyTokens(tokens: seq<string>) {
    && tokens != [] && (tokens[0] == "select" || tokens[0] == "with")
    && forall i :: 0 <= i < |tokens| ==> tokens[i] !in FORBIDDEN
  }

  predicate ReadOnly(ct: Letters, sql: string) {
    !HasMark(sql) && ReadOnlyTokens(SqlTokens(ct, sql))
  }

  /** `isReadOnlySql` */
  method IsReadOnlySql(ct: Letters, sql: string) returns (ok: bool)
    ensures ok <==> ReadOnly(ct, sql)
  {
    if HasMark(sql) {
      return false;
    }
    var tokens := ScanSqlTokens(ct, sql);
    if tokens == [] {
      return false;
    }
    if tokens[0] != "select" && tokens[0] != "with" {
      return false;
    }
    for i := 0 to |tokens|
      invariant forall k :: 0 <= k < i ==> tokens[k] !in FORBIDDEN
    {
      if tokens[i] in FORBIDDEN {
        return false;
      }
    }
    return true;
  }

  ghost predicate Occurs(s: string, mark: string) {
    exists a, b :: s == a + mark + b
  }

  lemma MarksOccur(s: string)
    ensures HasMark(s) <==> Occurs(s, ";") || Occurs(s, "$") || Occurs(s, "--") || Occurs(s, "/*") || Occurs(s, "*/")
  {
    if i :| 0 <= i < |s| && MarkAt(s, i) {
      assert s == s[..i] + [s[i]] + s[i + 1..];
      if s[i] != ';' && s[i] != '$' {
        assert s == s[..i] + [s[i], s[i + 1]] + s[i + 2..];
      }
    }
    forall mark, a, b | mark in {";", "$", "--", "/*", "*/"} && s == a + mark + b
      ensures HasMark(s)
    {
      assert forall k :: 0 <= k < |mark| ==> s[|a| + k] == mark[k];
      assert MarkAt(s, |a|);
    }
  }

  /** What the check lets pass, in full: a text without a separator, a dollar sign or one end of a comment
      anywhere, whose first token is `select` or `with` and none of whose tokens is one of these words. */
  lemma ReadOnlyExactly(ct: Letters, sql: string)
    ensures ReadOnly(ct, sql) <==>
              && !Occurs(sql, ";") && !Occurs(sql, "$") && !Occurs(sql, "--") && !Occurs(sql, "/*") && !Occurs(sql, "*/")
              && var tokens := SqlTokens(ct, sql);
                 && |tokens| > 0 && tokens[0] in {"select", "with"}
                 && forall i :: 0 <= i < |tokens| ==>
                      tokens[i] !in {"alter", "analyze", "call", "comment", "copy", "create", "delete", "do", "drop", "execute",
                                     "grant", "insert", "into", "lock", "merge", "operator", "refresh", "reindex", "revoke",
                                     "set", "truncate", "update", "vacuum"}
  {
    hide HasMark, Occurs, SqlTokens;
    MarksOccur(sql);
    assert forall w :: w in FORBIDDEN <==>
      w in {"alter", "analyze", "call", "comment", "copy", "create", "delete", "do", "drop", "execute", "grant", "insert", "into",
            "lock", "merge", "operator", "refresh", "reindex", "revoke", "set", "truncate", "update", "vacuum"};
  }

  // -------------------------------------------------------------------- marks

  predicate Neutral(c: char) {
    c != ';' && c != '$' && c != '-' && c != '/' && c != '*'
  }

  predicate AllNeutral(s: string) {
    forall i :: 0 <= i < |s| ==> Neutral(s[i])
  }

  lemma MarkConcat(a: string, b: string)
    requires a == [] || b == [] || Neutral(a[|a| - 1]) || Neutral(b[0])
    ensures HasMark(a + b) <==> HasMark(a) || HasMark(b)
  {
    var s := a + b;
    if i :| 0 <= i < |s| && MarkAt(s, i) {
      if i < |a| {
        assert MarkAt(a, i);
      } else {
        assert MarkAt(b, i - |a|);
      }
    }
    if i :| 0 <= i < |a| && MarkAt(a, i) {
      assert MarkAt(s, i);
    }
    if i :| 0 <= i < |b| && MarkAt(b, i) {
      assert MarkAt(s, i + |a|);
    }
  }

  lemma NeutralHasNoMark(s: string)
    requires AllNeutral(s)
    ensures !HasMark(s)
  {
    forall i | 0 <= i < |s|
      ensures !MarkAt(s, i)
    {
      assert Neutral(s[i]);
    }
  }

  /** Whether a mark starts at the head of a text depends on its first two characters only. */
  lemma MarkAtHead(c: char, s: string, t: string)
    requires (s == [] <==> t == []) && (s != [] ==> s[0] == t[0])
    requires HasMark(s) <==> HasMark(t)
    ensures HasMark([c] + s) <==> HasMark([c] + t)
  {
    HeadOrTail(c, s);
    HeadOrTail(c, t);
  }

  lemma HeadOrTail(c: char, s: string)
    ensures HasMark([c] + s) <==> MarkAt([c] + s, 0) || HasMark(s)
  {
    var all := [c] + s;
    if i :| 0 <= i < |all| && MarkAt(all, i) {
      if i > 0 {
        assert MarkAt(s, i - 1);
      }
    }
    if i :| 0 <= i < |s| && MarkAt(s, i) {
      assert MarkAt(all, i + 1);
    }
  }

  lemma {:induction false} DoublingKeepsMarks(v: string)
    ensures HasMark(Doubled(v, '\'')) <==> HasMark(v)
  {
    if v != [] {
      DoublingKeepsMarks(v[1..]);
      var rest := Doubled(v[1..], '\'');
      assert v == [v[0]] + v[1..];
      if v[0] == '\'' {
        NeutralHasNoMark(['\'']);
        NeutralHasNoMark(['\'', '\'']);
        MarkConcat(['\'', '\''], rest);
        MarkConcat(['\''], v[1..]);
      } else {
        MarkAtHead(v[0], rest, v[1..]);
      }
    }
  }

  /** The raw check looks inside literals: an embedded value brings in exactly its own marks. */
  lemma LiteralMarks(v: string, rest: string)
    ensures HasMark(SqlLiteral(v) + rest) <==> HasMark(v) || HasMark(rest)
  {
    var body := Doubled(v, '\'');
    DoublingKeepsMarks(v);
    NeutralHasNoMark(['\'']);
    MarkConcat(['\''], body);
    MarkConcat(['\''] + body, ['\'']);
    MarkConcat(SqlLiteral(v), rest);
  }

  // ------------------------------------------------------------------- pieces

  /** A word of fixed query text, in capitals or not, and what separates it from the next. */
  datatype Lexeme = U(word: string, gap: string) | L(word: string, gap: string)

  /** A built query: fixed text, with a string literal wherever the source has one. */
  datatype Piece = Fixed(lead: string, words: seq<Lexeme>) | Lit(value: string)

  function UpperChar(c: char): char {
    if 'a' <= c <= 'z' then (c as int - 32) as char else c
  }

  function Upper(w: string): string {
    if w == [] then [] else [UpperChar(w[0])] + Upper(w[1..])
  }

  function SpellWord(e: Lexeme): string {
    if e.U? then Upper(e.word) else e.word
  }

  function Spell(words: seq<Lexeme>): string {
    if words == [] then [] else SpellWord(words[0]) + words[0].gap + Spell(words[1..])
  }

  function PieceText(p: Piece): string {
    match p
    case Fixed(lead, words) => lead + Spell(words)
    case Lit(value) => SqlLiteral(value)
  }

  function Render(ps: seq<Piece>): string {
    if ps == [] then [] else PieceText(ps[0]) + Render(ps[1..])
  }

  function Words(es: seq<Lexeme>): seq<string> {
    if es == [] then [] else [es[0].word] + Words(es[1..])
  }

  function PieceWords(p: Piece): seq<string> {
    if p.Fixed? then Words(p.words) else []
  }

  function Keywords(ps: seq<Piece>): seq<string> {
    if ps == [] then [] else PieceWords(ps[0]) + Keywords(ps[1..])
  }

  predicate MarkFree(ps: seq<Piece>) {
    forall i :: 0 <= i < |ps| && ps[i].Lit? ==> !HasMark(ps[i].value)
  }

  predicate GapChar(c: char) {
    c == ' ' || c == '\n' || c == '.' || c == ',' || c == '(' || c == ')' || '<' <= c <= '>' || c == '|'
  }

  predicate GapOk(gap: string) {
    |gap| > 0 && forall i :: 0 <= i < |gap| ==> GapChar(gap[i])
  }

  predicate LexemesOk(es: seq<Lexeme>) {
    forall e :: e in es ==> WordOk(e.word) && GapOk(e.gap)
  }

  predicate PieceOk(p: Piece) {
    p.Fixed? ==> (p.lead == [] || GapOk(p.lead)) && LexemesOk(p.words)
  }

  predicate PiecesOk(ps: seq<Piece>) {
    forall i :: 0 <= i < |ps| ==> PieceOk(ps[i])
  }

  /** The abstract character tables agree with ASCII where ASCII decides. */
  ghost predicate AsciiLetters(ct: Letters) {
    forall c :: c < '\U{80}' ==>
      && (ct.letterOrDigit(c) <==> 'a' <= c <= 'z' || 'A' <= c <= 'Z' || '0' <= c <= '9')
      && ct.lower(c) == if 'A' <= c <= 'Z' then (c as int + 32) as char else c
  }

  /** `c` is a word character that the scanner collects as `d`. */
  ghost predicate CollectedAs(ct: Letters, c: char, d: char) {
    !IsQuote(c) && IsWordChar(ct, c) && ct.lower(c) == d
  }

  lemma {:induction false} FeedLetters(ct: Letters, st: Scanner, s: string, w: string)
    requires st.mode == Outside && |s| == |w|
    requires forall i :: 0 <= i < |s| ==> CollectedAs(ct, s[i], w[i])
    ensures Feed(ct, st, s) == st.(word := st.word + w)
    decreases s
  {
    if s == [] {
      assert st.word + w == st.word;
    } else {
      var next := st.(word := st.word + [w[0]]);
      assert CollectedAs(ct, s[0], w[0]);
      assert Take(ct, st, s[0]) == next;
      FeedLetters(ct, next, s[1..], w[1..]);
      assert st.word + [w[0]] + w[1..] == st.word + w;
    }
  }

  lemma {:induction false} UpperAt(w: string)
    ensures |Upper(w)| == |w| && forall i :: 0 <= i < |w| ==> Upper(w)[i] == UpperChar(w[i])
  {
    if w != [] {
      UpperAt(w[1..]);
    }
  }

  /** Only the letters `a` to `z` have a capital, 32 code points below. */
  lemma CapitalsExactly(c: char)
    ensures UpperChar(c) as int == if 97 <= c as int <= 122 then c as int - 32 else c as int
  {
  }

  lemma LetterIsCollected(ct: Letters, c: char)
    requires AsciiLetters(ct) && LowerWordChar(c)
    ensures CollectedAs(ct, c, c) && CollectedAs(ct, UpperChar(c), c)
  {
  }

  lemma FeedWord(ct: Letters, st: Scanner, w: string, capitals: bool)
    requires AsciiLetters(ct) && st.mode == Outside
    requires forall i :: 0 <= i < |w| ==> LowerWordChar(w[i])
    ensures Feed(ct, st, if capitals then Upper(w) else w) == st.(word := st.word + w)
  {
    hide AsciiLetters, LowerWordChar, CollectedAs, UpperChar;
    UpperAt(w);
    forall i | 0 <= i < |w|
      ensures CollectedAs(ct, w[i], w[i]) && CollectedAs(ct, UpperChar(w[i]), w[i])
    {
      LetterIsCollected(ct, w[i]);
    }
    FeedLetters(ct, st, if capitals then Upper(w) else w, w);
  }

  lemma {:induction false} FeedGap(ct: Letters, st: Scanner, gap: string)
    requires AsciiLetters(ct) && st.mode == Outside && forall i :: 0 <= i < |gap| ==> GapChar(gap[i])
    ensures Feed(ct, st, gap) == if gap == [] then st else Flush(st)
    decreases gap
  {
    if gap != [] {
      assert GapChar(gap[0]);
      assert Take(ct, st, gap[0]) == Flush(st);
      FeedGap(ct, Flush(st), gap[1..]);
    }
  }

  lemma FeedNothing(ct: Letters, st: Scanner)
    ensures Feed(ct, st, []) == st
  {
  }

  function Between(tokens: seq<string>): Scanner {
    Scanner(tokens, [], Outside)
  }

  lemma {:induction false} FeedSpelling(ct: Letters, tokens: seq<string>, es: seq<Lexeme>)
    requires AsciiLetters(ct) && LexemesOk(es)
    ensures Feed(ct, Between(tokens), Spell(es)) == Between(tokens + Words(es))
    decreases es
  {
    hide AsciiLetters, WordOk, GapOk, SpellWord, Feed;
    if es == [] {
      FeedNothing(ct, Between(tokens));
      assert tokens + Words(es) == tokens;
    } else {
      var e := es[0];
      assert WordOk(e.word) && GapOk(e.gap);
      FeedLexeme(ct, tokens, e);
      FeedConcat(ct, Between(tokens), SpellWord(e) + e.gap, Spell(es[1..]));
      FeedSpelling(ct, tokens + [e.word], es[1..]);
      assert tokens + [e.word] + Words(es[1..]) == tokens + Words(es);
    }
  }

  lemma FeedLexeme(ct: Letters, tokens: seq<string>, e: Lexeme)
    requires AsciiLetters(ct) && WordOk(e.word) && GapOk(e.gap)
    ensures Feed(ct, Between(tokens), SpellWord(e) + e.gap) == Between(tokens + [e.word])
  {
    hide AsciiLetters;
    var st := Between(tokens).(word := e.word);
    FeedWord(ct, Between(tokens), e.word, e.U?);
    assert [] + e.word == e.word;
    FeedConcat(ct, Between(tokens), SpellWord(e), e.gap);
    FeedGap(ct, st, e.gap);
  }

  lemma FeedPiece(ct: Letters, tokens: seq<string>, p: Piece)
    requires AsciiLetters(ct) && PieceOk(p)
    ensures Feed(ct, Between(tokens), PieceText(p)) == Between(tokens + PieceWords(p))
  {
    match p
    case Fixed(lead, words) =>
      FeedGap(ct, Between(tokens), lead);
      FeedConcat(ct, Between(tokens), lead, Spell(words));
      FeedSpelling(ct, tokens, words);
    case Lit(value) =>
      FeedLiteral(ct, Between(tokens), value);
      assert tokens + [] == tokens;
  }

  lemma {:induction false} FeedRendering(ct: Letters, tokens: seq<string>, ps: seq<Piece>)
    requires AsciiLetters(ct) && PiecesOk(ps)
    ensures Feed(ct, Between(tokens), Render(ps)) == Between(tokens + Keywords(ps))
    decreases ps
  {
    hide Feed, PieceOk, PieceWords, PieceText, AsciiLetters;
    if ps == [] {
      FeedNothing(ct, Between(tokens));
      assert tokens + Keywords(ps) == tokens;
    } else {
      var more := PieceWords(ps[0]);
      var st := Between(tokens + more);
      FeedPiece(ct, tokens, ps[0]);
      FeedConcat(ct, Between(tokens), PieceText(ps[0]), Render(ps[1..]));
      assert Feed(ct, Between(tokens), Render(ps)) == Feed(ct, st, Render(ps[1..]));
      FeedRendering(ct, tokens + more, ps[1..]);
      assert tokens + more + Keywords(ps[1..]) == tokens + Keywords(ps);
    }
  }

  /** A forbidden word in capitals or not, standing by itself outside quotes, makes the bridge refuse the
      text, whatever stands before and after it. */
  lemma ForbiddenWordIsRefused(ct: Letters, before: string, word: string, after: string, w: string)
    requires AsciiLetters(ct) && w in FORBIDDEN
    requires |word| == |w| && forall i :: 0 <= i < |w| ==> word[i] == w[i] || word[i] == UpperChar(w[i])
    requires Feed(ct, Start(), before).mode == Outside && Feed(ct, Start(), before).word == []
    requires after != [] ==> IsQuote(after[0]) || !IsWordChar(ct, after[0])
    ensures !ReadOnly(ct, before + word + after)
  {
    hide AsciiLetters, IsWordChar, UpperChar, LowerWordChar, HasMark, CollectedAs;
    var st := Feed(ct, Start(), before);
    ForbiddenIsPlain(w);
    forall i | 0 <= i < |w|
      ensures CollectedAs(ct, word[i], w[i])
    {
      LetterIsCollected(ct, w[i]);
    }
    FeedLetters(ct, st, word, w);
    assert [] + w == w;
    FeedConcat(ct, Start(), before, word);
    FeedConcat(ct, Start(), before + word, after);
    WordIsToken(ct, st.(word := w), after);
  }

  lemma ForbiddenIsPlain(w: string)
    requires w in FORBIDDEN
    ensures |w| > 0 && forall i :: 0 <= i < |w| ==> LowerWordChar(w[i])
  {
    assert forall k :: 0 <= k < |FORBIDDEN| ==> |FORBIDDEN[k]| > 0 && forall i :: 0 <= i < |FORBIDDEN[k]| ==> LowerWordChar(FORBIDDEN[k][i]);
  }

  /** A pending word that is not continued becomes a token, unless a quote stays open. */
  lemma WordIsToken(ct: Letters, st: Scanner, after: string)
    requires st.mode == Outside && st.word != []
    requires after != [] ==> IsQuote(after[0]) || !IsWordChar(ct, after[0])
    ensures var r := Feed(ct, st, after); r.mode == Outside ==> st.word in Flush(r).tokens
  {
    if after != [] {
      var next := Take(ct, st, after[0]);
      assert next.tokens == st.tokens + [st.word] && next.word == [];
      FeedAfter(ct, next.tokens, next.(tokens := []), after[1..]);
      assert next.(tokens := next.tokens + []) == next;
    }
  }

  /** The query text: its pieces and, in some queries, the row offset at the end. */
  function QueryText(ps: seq<Piece>, offset: Option<nat>): string {
    Render(ps) + OffsetText(offset)
  }

  function OffsetText(offset: Option<nat>): string {
    if offset.None? then [] else Decimal.Digits(offset.value)
  }

  /** The tokens of a built query are its fixed words and the offset: no value has any part in them. */
  lemma TokensIgnoreValues(ct: Letters, ps: seq<Piece>, offset: Option<nat>)
    requires AsciiLetters(ct) && PiecesOk(ps)
    ensures SqlTokens(ct, QueryText(ps, offset))
            == Keywords(ps) + if offset.None? then [] else [Decimal.Digits(offset.value)]
  {
    var digits := OffsetText(offset);
    FeedRendering(ct, [], ps);
    assert [] + Keywords(ps) == Keywords(ps);
    FeedConcat(ct, Start(), Render(ps), digits);
    if offset.Some? {
      Decimal.DigitsRoundTrip(offset.value);
    }
    FeedWord(ct, Between(Keywords(ps)), digits, false);
    assert [] + digits == digits;
  }

  // ------------------------------------------------------------ acceptance

  lemma {:induction false} SpellingIsNeutral(es: seq<Lexeme>)
    requires LexemesOk(es)
    ensures AllNeutral(Spell(es))
  {
    if es != [] {
      assert WordOk(es[0].word) && GapOk(es[0].gap);
      UpperIsNeutral(es[0].word);
      SpellingIsNeutral(es[1..]);
    }
  }

  lemma {:induction false} UpperIsNeutral(w: string)
    requires forall i :: 0 <= i < |w| ==> LowerWordChar(w[i])
    ensures AllNeutral(w) && AllNeutral(Upper(w))
  {
    if w != [] {
      UpperIsNeutral(w[1..]);
    }
  }

  lemma NeutralPrefix(a: string, b: string)
    requires AllNeutral(a)
    ensures HasMark(a + b) <==> HasMark(b)
  {
    NeutralHasNoMark(a);
    MarkConcat(a, b);
  }

  lemma MarkFreeEmpty()
    ensures MarkFree([])
  {
  }

  lemma MarkFreeCons(ps: seq<Piece>)
    requires ps != []
    ensures MarkFree(ps) <==> (ps[0].Lit? ==> !HasMark(ps[0].value)) && MarkFree(ps[1..])
  {
    assert ps == [ps[0]] + ps[1..];
  }

  lemma {:induction false} RenderingMarks(ps: seq<Piece>, tail: string)
    requires PiecesOk(ps) && AllNeutral(tail)
    ensures HasMark(Render(ps) + tail) <==> !MarkFree(ps)
  {
    hide HasMark, MarkFree, LexemesOk;
    if ps == [] {
      assert MarkFree(ps) by {
        MarkFreeEmpty();
      }
      assert Render(ps) + tail == tail;
      NeutralHasNoMark(tail);
    } else {
      var rest := Render(ps[1..]) + tail;
      RenderingMarks(ps[1..], tail);
      assert Render(ps) + tail == PieceText(ps[0]) + rest;
      MarkFreeCons(ps);
      assert PieceOk(ps[0]);
      if ps[0].Lit? {
        LiteralMarks(ps[0].value, rest);
      } else {
        SpellingIsNeutral(ps[0].words);
        NeutralPrefix(PieceText(ps[0]), rest);
      }
    }
  }

  lemma {:induction false} KeywordsAreHarmless(ps: seq<Piece>)
    requires PiecesOk(ps)
    ensures forall i :: 0 <= i < |Keywords(ps)| ==> Keywords(ps)[i] !in FORBIDDEN
  {
    if ps != [] {
      assert PieceOk(ps[0]);
      if ps[0].Fixed? {
        WordsAreHarmless(ps[0].words);
      }
      KeywordsAreHarmless(ps[1..]);
    }
  }

  lemma {:induction false} WordsAreHarmless(es: seq<Lexeme>)
    requires LexemesOk(es)
    ensures forall i :: 0 <= i < |Words(es)| ==> Words(es)[i] !in FORBIDDEN
  {
    if es != [] {
      assert WordOk(es[0].word);
      WordsAreHarmless(es[1..]);
    }
  }

  lemma NumbersAreHarmless(n: nat)
    ensures Decimal.Digits(n) !in FORBIDDEN && AllNeutral(Decimal.Digits(n))
  {
    hide Decimal.Digits;
    Decimal.DigitsRoundTrip(n);
    NumbersAreAllowed(Decimal.Digits(n));
  }

  /** The bridge accepts a query built from harmless fixed text, starting with `select`, exactly when
      no embedded value contains one of the marks. */
  lemma AcceptedExactlyWhenMarkFree(ct: Letters, ps: seq<Piece>, offset: Option<nat>)
    requires AsciiLetters(ct) && PiecesOk(ps)
    requires Keywords(ps) != [] && Keywords(ps)[0] == "select"
    ensures ReadOnly(ct, QueryText(ps, offset)) <==> MarkFree(ps)
  {
    TokensIgnoreValues(ct, ps, offset);
    if offset.Some? {
      NumbersAreHarmless(offset.value);
    }
    RenderingMarks(ps, OffsetText(offset));
    KeywordsAreHarmless(ps);
  }

  // ---------------------------------------------------- values and appending

  function PieceValue(p: Piece): seq<string> {
    if p.Lit? then [p.value] else []
  }

  function Literals(ps: seq<Piece>): seq<string> {
    if ps == [] then [] else PieceValue(ps[0]) + Literals(ps[1..])
  }

  predicate Unmarked(values: seq<string>) {
    forall i :: 0 <= i < |values| ==> !HasMark(values[i])
  }

  /** Pieces of the right form that embed just these values, in this order, after `select`. */
  predicate Query(ps: seq<Piece>, values: seq<string>) {
    && PiecesOk(ps) && Literals(ps) == values
    && Keywords(ps) != [] && Keywords(ps)[0] == "select"
  }

  lemma {:induction false} LiteralsConcat(ps: seq<Piece>, qs: seq<Piece>)
    ensures Literals(ps + qs) == Literals(ps) + Literals(qs)
    ensures Keywords(ps + qs) == Keywords(ps) + Keywords(qs)
  {
    hide PieceValue, PieceWords;
    if ps == [] {
      assert ps + qs == qs;
    } else {
      var all := ps + qs;
      assert all[0] == ps[0] && all[1..] == ps[1..] + qs;
      LiteralsConcat(ps[1..], qs);
      assert Literals(all) == PieceValue(ps[0]) + (Literals(ps[1..]) + Literals(qs));
      assert Keywords(all) == PieceWords(ps[0]) + (Keywords(ps[1..]) + Keywords(qs));
    }
  }

  lemma Append(ps: seq<Piece>, values: seq<string>, qs: seq<Piece>)
    requires Query(ps, values) && PiecesOk(qs)
    ensures Query(ps + qs, values + Literals(qs))
  {
    LiteralsConcat(ps, qs);
  }

  lemma OneUnmarked(v: string)
    ensures Unmarked([v]) <==> !HasMark(v)
  {
    assert [v][0] == v;
  }

  lemma {:induction false} MarkFreeMeansUnmarked(ps: seq<Piece>)
    ensures MarkFree(ps) <==> Unmarked(Literals(ps))
  {
    if ps != [] {
      MarkFreeMeansUnmarked(ps[1..]);
      MarkFreeCons(ps);
      if ps[0].Lit? {
        OneUnmarked(ps[0].value);
      }
      UnmarkedConcat(PieceValue(ps[0]), Literals(ps[1..]));
    }
  }

  lemma UnmarkedConcat(a: seq<string>, b: seq<string>)
    ensures Unmarked(a + b) <==> Unmarked(a) && Unmarked(b)
  {
    var all := a + b;
    if Unmarked(all) {
      forall i | 0 <= i < |a|
        ensures !HasMark(a[i])
      {
        assert all[i] == a[i];
      }
      forall i | 0 <= i < |b|
        ensures !HasMark(b[i])
      {
        assert all[|a| + i] == b[i];
      }
    }
  }

  /** A built query is accepted exactly when none of the embedded values has a mark. */
  lemma QueryAcceptance(ct: Letters, ps: seq<Piece>, values: seq<string>, offset: Option<nat>)
    requires AsciiLetters(ct) && Query(ps, values)
    ensures ReadOnly(ct, QueryText(ps, offset)) <==> Unmarked(values)
  {
    AcceptedExactlyWhenMarkFree(ct, ps, offset);
    MarkFreeMeansUnmarked(ps);
  }
}
