/** The printer of SQL string literals, and the scanner whose tokens decide at the bridge whether a text
    is a read-only query. */
module SqlText {
  import opened Qualification

  /** `Character.isLetterOrDigit` and `Character.toLowerCase`, left abstract outside ASCII. */
  datatype Letters = Letters(letterOrDigit: char -> bool, lower: char -> char)

  predicate IsWordChar(ct: Letters, c: char) {
    ct.letterOrDigit(c) || c == '_'
  }

  // ------------------------------------------------------------- the scanner

  datatype Mode = Outside | Inside(quote: char)

  /** Finished tokens, the token being collected, and the kind of quotes open, if any. */
  datatype Scanner = Scanner(tokens: seq<string>, word: string, mode: Mode)

  function Start(): Scanner {
    Scanner([], [], Outside)
  }

  function Flush(st: Scanner): Scanner {
    if st.word == [] then st else st.(tokens := st.tokens + [st.word], word := [])
  }

  /** One character outside quotes. */
  function Take(ct: Letters, st: Scanner, c: char): Scanner {
    if IsQuote(c) then Flush(st).(mode := Inside(c))
    else if IsWordChar(ct, c) then st.(word := st.word + [ct.lower(c)])
    else Flush(st)
  }

  function Feed(ct: Letters, st: Scanner, s: string): Scanner
    decreases |s|
  {
    if s == [] then st
    else if st.mode == Outside then Feed(ct, Take(ct, st, s[0]), s[1..])
    else if s[0] != st.mode.quote then Feed(ct, st, s[1..])
    else if |s| > 1 && s[1] == s[0] then Feed(ct, st, s[2..])
    else Feed(ct, st.(mode := Outside), s[1..])
  }

  /** A text that leaves a quote open has no tokens at all. */
  function SqlTokens(ct: Letters, s: string): seq<string> {
    var st := Feed(ct, Start(), s);
    if st.mode == Outside then Flush(st).tokens else []
  }

  /** `sqlTokens` */
  method ScanSqlTokens(ct: Letters, sql: string) returns (tokens: seq<string>)
    ensures tokens == SqlTokens(ct, sql)
  {
    var token := [];
    var singleQuoted, doubleQuoted := false, false;
    tokens := [];
    var index := 0;
    assert sql[0..] == sql;
    while index < |sql|
      invariant 0 <= index <= |sql| && !(singleQuoted && doubleQuoted)
      invariant Feed(ct, Start(), sql) == Feed(ct, Scanner(tokens, token, ModeOf(singleQuoted, doubleQuoted)), sql[index..])
    {
      var character := sql[index];
      assert sql[index..][1..] == sql[index + 1..];
      assert index + 1 < |sql| ==> sql[index..][2..] == sql[index + 2..];
      index := index + 1;
      if singleQuoted {
        if character == '\'' && index < |sql| && sql[index] == '\'' {
          index := index + 1;
        } else if character == '\'' {
          singleQuoted := false;
        }
        continue;
      }
      if doubleQuoted {
        if character == '"' && index < |sql| && sql[index] == '"' {
          index := index + 1;
        } else if character == '"' {
          doubleQuoted := false;
        }
        continue;
      }
      if character == '\'' {
        tokens, token := FlushToken(tokens, token);
        singleQuoted := true;
      } else if character == '"' {
        tokens, token := FlushToken(tokens, token);
        doubleQuoted := true;
      } else if IsWordChar(ct, character) {
        token := token + [ct.lower(character)];
      } else {
        tokens, token := FlushToken(tokens, token);
      }
    }
    tokens, token := FlushToken(tokens, token);
    if singleQuoted || doubleQuoted {
      return [];
    }
  }

  /** `flushSqlToken` */
  method FlushToken(before: seq<string>, token: string) returns (tokens: seq<string>, rest: string)
    ensures forall mode :: Scanner(tokens, rest, mode) == Flush(Scanner(before, token, mode))
  {
    tokens, rest := before, token;
    if |token| > 0 {
      tokens := tokens + [token];
      rest := [];
    }
  }

  function ModeOf(singleQuoted: bool, doubleQuoted: bool): Mode {
    if singleQuoted then Inside('\'') else if doubleQuoted then Inside('"') else Outside
  }

  // ----------------------------------------------------- joining scanned texts

  /** No token is pending inside quotes. */
  predicate GoodScanner(st: Scanner) {
    st.mode == Outside || (IsQuote(st.mode.quote) && st.word == [])
  }

  /** A text can be scanned in two parts, wherever it is cut: also between two quotes, since closing a
      literal and opening it again leaves the same state as a doubled quote inside it. */
  lemma {:induction false} FeedConcat(ct: Letters, st: Scanner, p: string, q: string)
    requires GoodScanner(st)
    ensures Feed(ct, st, p + q) == Feed(ct, Feed(ct, st, p), q)
    decreases |p|
  {
    if p == [] {
      assert p + q == q;
    } else {
      assert (p + q)[1..] == p[1..] + q;
      assert |p| > 1 ==> (p + q)[2..] == p[2..] + q;
      if st.mode == Outside {
        FeedConcat(ct, Take(ct, st, p[0]), p[1..], q);
      } else if p[0] != st.mode.quote {
        FeedConcat(ct, st, p[1..], q);
      } else if |p| > 1 && p[1] == p[0] {
        FeedConcat(ct, st, p[2..], q);
      } else {
        FeedConcat(ct, st.(mode := Outside), p[1..], q);
        if |p| == 1 && q != [] && q[0] == p[0] {
          assert p[1..] + q == q && (p + q)[2..] == q[1..];
          assert Take(ct, st.(mode := Outside), q[0]) == st;
        }
      }
    }
  }

  /** Tokens already finished are only carried along. */
  lemma {:induction false} FeedAfter(ct: Letters, before: seq<string>, st: Scanner, s: string)
    ensures var r := Feed(ct, st, s);
            Feed(ct, st.(tokens := before + st.tokens), s) == r.(tokens := before + r.tokens)
    decreases |s|
  {
    if s != [] {
      if st.mode == Outside {
        assert before + (st.tokens + [st.word]) == before + st.tokens + [st.word];
        FeedAfter(ct, before, Take(ct, st, s[0]), s[1..]);
      } else if s[0] != st.mode.quote {
        FeedAfter(ct, before, st, s[1..]);
      } else if |s| > 1 && s[1] == s[0] {
        FeedAfter(ct, before, st, s[2..]);
      } else {
        FeedAfter(ct, before, st.(mode := Outside), s[1..]);
      }
    }
  }

  // ------------------------------------------------------------- the literal

  /** `_sql_literal` */
  function SqlLiteral(value: string): string {
    ['\''] + Doubled(value, '\'') + ['\'']
  }

  lemma {:induction false} FeedQuoted(ct: Letters, st: Scanner, value: string)
    requires st.mode == Inside('\'')
    ensures Feed(ct, st, Doubled(value, '\'') + ['\'']) == st.(mode := Outside)
  {
    var s := Doubled(value, '\'') + ['\''];
    if value == [] {
      assert s == ['\''];
    } else {
      var rest := Doubled(value[1..], '\'') + ['\''];
      FeedQuoted(ct, st, value[1..]);
      if value[0] == '\'' {
        assert s == ['\'', '\''] + rest;
        assert s[2..] == rest;
      } else {
        assert s == [value[0]] + rest;
        assert s[1..] == rest;
      }
    }
  }

  lemma FeedLiteral(ct: Letters, st: Scanner, value: string)
    requires st.mode == Outside
    ensures Feed(ct, st, SqlLiteral(value)) == Flush(st)
  {
    var s := SqlLiteral(value);
    assert s[1..] == Doubled(value, '\'') + ['\''];
    FeedQuoted(ct, Flush(st).(mode := Inside('\'')), value);
  }

  /** An embedded literal contributes no token, whatever its value: the text around it is scanned as
      if it were two texts. */
  lemma EmbeddedLiteral(ct: Letters, before: string, value: string, after: string)
    requires Feed(ct, Start(), before).mode == Outside
    ensures SqlTokens(ct, before + SqlLiteral(value) + after)
            == if Feed(ct, Start(), after).mode == Outside then SqlTokens(ct, before) + SqlTokens(ct, after) else []
  {
    var literal := SqlLiteral(value);
    var st := Feed(ct, Start(), before);
    FeedConcat(ct, Start(), before, literal);
    FeedLiteral(ct, st, value);
    FeedConcat(ct, Start(), before + literal, after);
    var done := Flush(st);
    FeedAfter(ct, done.tokens, Start(), after);
    assert done.tokens + [] == done.tokens;
    var r := Feed(ct, Start(), after);
    assert done.tokens + (r.tokens + [r.word]) == done.tokens + r.tokens + [r.word];
  }
}
