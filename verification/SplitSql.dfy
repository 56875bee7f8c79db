/** Splitting the text of a job into statements (split_sql). */
module SplitSql {
  import opened Options

  predicate IsQuote(c: char) { c == '"' || c == '\'' }

  /** The place of the first c, or the length if there is none. */
  function Find(s: string, c: char): (k: nat)
    ensures k <= |s| && (k < |s| ==> s[k] == c) && forall i :: 0 <= i < k ==> s[i] != c
  {
    if s == "" || s[0] == c then 0 else 1 + Find(s[1..], c)
  }

  /** The length of what one alternative of the pattern matches at the start: a character that is neither quote
      nor semicolon, or a quoted text with its quotes; 0 if none matches. */
  function TokenLength(s: string): (k: nat)
    ensures k <= |s|
  {
    if s == "" || s[0] == ';' then 0
    else if !IsQuote(s[0]) then 1
    else
      var k := Find(s[1..], s[0]);
      if k == |s| - 1 then 0 else k + 2
  }

  /** The length of the longest match at the start. */
  function MatchLength(s: string): (k: nat)
    ensures k <= |s|
    decreases |s|
  {
    var k := TokenLength(s);
    if k == 0 then 0 else k + MatchLength(s[k..])
  }

  /** All matches, from left to right; characters at which nothing matches are skipped. */
  function SplitSql(s: string): seq<string>
    decreases |s|
  {
    if s == "" then []
    else
      var k := MatchLength(s);
      if k == 0 then SplitSql(s[1..]) else [s[..k]] + SplitSql(s[k..])
  }

  // ---- the reference: one pass over the characters, remembering the open quote ----

  function Next(open: Option<char>, c: char): Option<char> {
    match open
    case None => if IsQuote(c) then Some(c) else None
    case Some(quote) => if c == quote then None else open
  }

  /** The open quote after s. */
  function After(open: Option<char>, s: string): Option<char>
    decreases s
  {
    if s == "" then open else After(Next(open, s[0]), s[1..])
  }

  /** s without its top-level semicolons. */
  function Strip(open: Option<char>, s: string): string
    decreases s
  {
    if s == "" then ""
    else (if open.None? && s[0] == ';' then "" else [s[0]]) + Strip(Next(open, s[0]), s[1..])
  }

  predicate Balanced(s: string) { After(None, s) == None }

  /** A statement: not empty, quotes closed, no semicolon outside quotes. */
  predicate Statement(s: string) {
    s != "" && Balanced(s) && Strip(None, s) == s
  }

  function Joined(statements: seq<string>): string {
    if |statements| == 0 then ""
    else if |statements| == 1 then statements[0]
    else statements[0] + ";" + Joined(statements[1..])
  }

  function Concat(pieces: seq<string>): string {
    if pieces == [] then "" else pieces[0] + Concat(pieces[1..])
  }

  // ---- tokens and the open quote ----

  lemma {:induction false} InsideQuotes(quote: char, text: string, rest: string)
    requires quote !in text
    ensures After(Some(quote), text + [quote] + rest) == After(None, rest)
    ensures Strip(Some(quote), text + [quote] + rest) == text + [quote] + Strip(None, rest)
  {
    var s := text + [quote] + rest;
    if text == "" {
      assert s[1..] == rest;
    } else {
      assert s[1..] == text[1..] + [quote] + rest;
      InsideQuotes(quote, text[1..], rest);
    }
  }

  lemma {:induction false} NeverClosed(quote: char, text: string)
    requires quote !in text
    ensures After(Some(quote), text) == Some(quote) && Strip(Some(quote), text) == text
  {
    if text != "" {
      NeverClosed(quote, text[1..]);
    }
  }

  /** A token, put before any text, closes its quotes and loses nothing. */
  lemma TokenIsClosed(s: string, rest: string)
    requires TokenLength(s) > 0
    ensures var t := s[..TokenLength(s)];
      After(None, t + rest) == After(None, rest) && Strip(None, t + rest) == t + Strip(None, rest)
  {
    var t := s[..TokenLength(s)];
    assert (t + rest)[1..] == t[1..] + rest;
    if IsQuote(s[0]) {
      var k := Find(s[1..], s[0]);
      var text := s[1..][..k];
      assert t[1..] + rest == text + [s[0]] + rest;
      InsideQuotes(s[0], text, rest);
    } else {
      assert t[1..] == "";
      assert "" + rest == rest;
    }
  }

  /** Where no token starts there is a semicolon, or a quote that is never closed. */
  lemma NoToken(s: string)
    requires s != "" && TokenLength(s) == 0
    ensures s[0] == ';' || (IsQuote(s[0]) && After(None, s).Some? && Strip(None, s) == s)
  {
    if s[0] != ';' {
      NeverClosed(s[0], s[1..]);
    }
  }

  /** A match is its first token and what is matched after that. */
  lemma MatchParts(s: string, rest: string) returns (tail: string)
    requires TokenLength(s) > 0
    ensures tail == s[TokenLength(s)..][..MatchLength(s[TokenLength(s)..])]
    ensures s[..MatchLength(s)] == s[..TokenLength(s)] + tail
    ensures s[..MatchLength(s)] + rest == s[..TokenLength(s)] + (tail + rest)
  {
    var k, m := TokenLength(s), MatchLength(s[TokenLength(s)..]);
    assert MatchLength(s) == k + m;
    tail := s[k..][..m];
    CutTwice(s, k, m, rest);
  }

  lemma CutTwice(s: string, k: nat, m: nat, rest: string)
    requires k + m <= |s|
    ensures s[..k + m] == s[..k] + s[k..][..m]
    ensures s[..k + m] + rest == s[..k] + (s[k..][..m] + rest)
  {
    assert s[..k + m] == s[..k] + s[k..][..m];
  }

  lemma {:induction false} MatchIsClosed(s: string, rest: string)
    ensures var t := s[..MatchLength(s)];
      After(None, t + rest) == After(None, rest) && Strip(None, t + rest) == t + Strip(None, rest)
    decreases |s|
  {
    var k := TokenLength(s);
    if k == 0 {
      assert s[..0] + rest == rest;
      assert "" + Strip(None, rest) == Strip(None, rest);
    } else {
      var tail := MatchParts(s, rest);
      hide After, Strip, TokenLength, MatchLength;
      TokenIsClosed(s, tail + rest);
      MatchIsClosed(s[k..], rest);
      assert s[..k] + (tail + Strip(None, rest)) == s[..k] + tail + Strip(None, rest);
    }
  }

  // ---- the guarantees ----

  lemma PieceIsStatement(s: string)
    requires MatchLength(s) > 0
    ensures Statement(s[..MatchLength(s)])
  {
    var t := s[..MatchLength(s)];
    MatchIsClosed(s, "");
    assert t + "" == t;
  }

  /** Every piece is a statement: not empty, with closed quotes and no semicolon outside them. */
  lemma {:induction false} PiecesAreStatements(s: string)
    ensures forall i :: 0 <= i < |SplitSql(s)| ==> Statement(SplitSql(s)[i])
    decreases |s|
  {
    if s != "" {
      var k := MatchLength(s);
      if k == 0 {
        PiecesAreStatements(s[1..]);
      } else {
        PieceIsStatement(s);
        PiecesAreStatements(s[k..]);
      }
    }
  }

  lemma {:induction false} ConcatIsNoLonger(s: string)
    ensures |Concat(SplitSql(s))| <= |s|
    decreases |s|
  {
    if s != "" {
      var k := MatchLength(s);
      ConcatIsNoLonger(if k == 0 then s[1..] else s[k..]);
    }
  }

  /** Splitting loses the top-level semicolons and nothing else exactly when all quotes are closed; an unclosed
      quote is dropped itself. */
  lemma {:induction false} OnlySemicolonsAreLostIff(s: string)
    ensures Concat(SplitSql(s)) == Strip(None, s) <==> Balanced(s)
    decreases |s|
  {
    if s != "" {
      var k := MatchLength(s);
      if k == 0 {
        NoToken(s);
        if s[0] == ';' {
          OnlySemicolonsAreLostIff(s[1..]);
        } else {
          ConcatIsNoLonger(s[1..]);
        }
      } else {
        assert s[..k] + s[k..] == s;
        MatchIsClosed(s, s[k..]);
        OnlySemicolonsAreLostIff(s[k..]);
        var pieces := SplitSql(s);
        assert pieces[1..] == SplitSql(s[k..]);
        SamePrefix(s[..k], Concat(pieces[1..]), Strip(None, s[k..]));
      }
    }
  }

  lemma SamePrefix(a: string, b: string, c: string)
    ensures a + b == a + c <==> b == c
  {
    assert (a + b)[|a|..] == b && (a + c)[|a|..] == c;
  }

  lemma {:induction false} FindInPrefix(s: string, rest: string, c: char)
    requires Find(s, c) < |s|
    ensures Find(s + rest, c) == Find(s, c)
  {
    if s[0] != c {
      assert (s + rest)[1..] == s[1..] + rest;
      FindInPrefix(s[1..], rest, c);
    }
  }

  /** The first token of a statement is the same with more text after it; what follows it is a statement too,
      or empty. */
  lemma TokenOfStatement(s: string, rest: string) returns (k: nat, tail: string)
    requires s != "" && Balanced(s) && Strip(None, s) == s
    ensures 0 < k == TokenLength(s) == TokenLength(s + rest) && k <= |s| && tail == s[k..]
    ensures (s + rest)[k..] == tail + rest
    ensures Balanced(tail) && Strip(None, tail) == tail
  {
    hide After, Strip, TokenLength;
    FirstTokenOf(s);
    k := TokenLength(s);
    tail := s[k..];
    TokenWithMore(s, rest);
    assert s[..k] + tail == s;
    TokenIsClosed(s, tail);
    SamePrefix(s[..k], tail, Strip(None, tail));
    DropOfSum(s, rest, k);
  }

  lemma DropOfSum(s: string, rest: string, k: nat)
    requires k <= |s|
    ensures (s + rest)[k..] == s[k..] + rest
  {
  }

  lemma TokenWithMore(s: string, rest: string)
    requires TokenLength(s) > 0
    ensures TokenLength(s + rest) == TokenLength(s)
  {
    assert (s + rest)[1..] == s[1..] + rest;
    if IsQuote(s[0]) {
      FindInPrefix(s[1..], rest, s[0]);
    }
  }

  /** A statement followed by a semicolon, by an unclosed quote or by nothing is matched as a whole. */
  lemma {:induction false} StatementIsMatched(s: string, rest: string)
    requires Balanced(s) && Strip(None, s) == s && TokenLength(rest) == 0
    ensures MatchLength(s + rest) == |s|
    decreases |s|
  {
    if s == "" {
      assert s + rest == rest;
    } else {
      var k, tail := TokenOfStatement(s, rest);
      hide TokenLength, After, Strip, Next;
      StatementIsMatched(tail, rest);
    }
  }

  lemma {:induction false} StripIsNoLonger(open: Option<char>, s: string)
    ensures |Strip(open, s)| <= |s|
    decreases s
  {
    if s != "" {
      StripIsNoLonger(Next(open, s[0]), s[1..]);
    }
  }

  lemma FirstTokenOf(s: string)
    requires s != "" && Balanced(s) && Strip(None, s) == s
    ensures TokenLength(s) > 0
  {
    if TokenLength(s) == 0 {
      NoToken(s);
      StripIsNoLonger(None, s[1..]);
    }
  }

  lemma SplitFirst(first: string, rest: string)
    requires Statement(first) && TokenLength(rest) == 0
    ensures SplitSql(first + rest) == [first] + SplitSql(rest)
  {
    var s := first + rest;
    StatementIsMatched(first, rest);
    assert s[..|first|] == first && s[|first|..] == rest;
  }

  lemma SplitAfterFirst(rest: string, joined: string)
    requires rest == ";" + joined || rest == joined == ""
    ensures SplitSql(rest) == SplitSql(joined)
  {
    if rest != "" {
      assert rest[1..] == joined;
    }
  }

  /** Splitting undoes joining with semicolons. */
  lemma {:induction false} SplitOfJoined(statements: seq<string>)
    requires forall i :: 0 <= i < |statements| ==> Statement(statements[i])
    ensures SplitSql(Joined(statements)) == statements
  {
    if |statements| > 0 {
      hide SplitSql, MatchLength, Strip, After;
      var first := statements[0];
      var rest := if |statements| == 1 then "" else ";" + Joined(statements[1..]);
      assert Joined(statements) == first + rest;
      SplitFirst(first, rest);
      SplitOfJoined(statements[1..]);
      SplitAfterFirst(rest, Joined(statements[1..]));
      assert [first] + statements[1..] == statements;
    }
  }

  /** Text between two quotes of the same kind is a statement, whatever semicolons and other quotes it holds. */
  lemma QuotedIsStatement(quote: char, text: string)
    requires quote in "\"'" && quote !in text
    ensures Statement([quote] + text + [quote])
  {
    var s := [quote] + text + [quote];
    assert s[1..] == text + [quote] + "";
    InsideQuotes(quote, text, "");
    assert s == [quote] + (text + [quote]);
  }

  /** So is text without quotes and semicolons. */
  lemma {:induction false} PlainIsStatement(text: string)
    requires text != "" && ';' !in text && '"' !in text && '\'' !in text
    ensures Statement(text)
  {
    if |text| > 1 {
      PlainIsStatement(text[1..]);
    }
  }

  lemma JoinedThree(a: string, b: string, c: string)
    ensures Joined([a, b, c]) == a + ";" + (b + ";" + c)
  {
    assert [a, b, c][1..] == [b, c] && [b, c][1..] == [c];
    assert Joined([c]) == c && Joined([b, c]) == b + ";" + c;
  }

  lemma {:induction false} NotFound(s: string, c: char)
    requires c !in s
    ensures Find(s, c) == |s|
  {
    if s != "" {
      NotFound(s[1..], c);
    }
  }

  /** A quote that is never closed ends the statement before it and is left out; splitting goes on after it. */
  lemma UnclosedQuoteSplits(first: string, quote: char, rest: string)
    requires Statement(first) && quote in "\"'" && quote !in rest
    ensures SplitSql(first + ([quote] + rest)) == [first] + SplitSql(rest)
  {
    hide Statement;
    assert ([quote] + rest)[1..] == rest;
    NotFound(rest, quote);
    SplitFirst(first, [quote] + rest);
  }

  /** Only semicolons outside quotes split. */
  lemma QuotesProtectSemicolons(text: string, single: string, double: string)
    requires text != "" && ';' !in text && '"' !in text && '\'' !in text && '\'' !in single && '"' !in double
    ensures var a, b := "'" + single + "'", "\"" + double + "\"";
      SplitSql(text + ";" + (a + ";" + b)) == [text, a, b]
  {
    hide SplitSql, Statement, Joined;
    var a, b := "'" + single + "'", "\"" + double + "\"";
    PlainIsStatement(text);
    QuotedIsStatement('\'', single);
    QuotedIsStatement('"', double);
    JoinedThree(text, a, b);
    SplitOfJoined([text, a, b]);
  }
}
