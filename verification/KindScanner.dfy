/** The statement classifier: one pass over the text, skipping comments, quoted text and
    whatever stands in parentheses.  It is proved to be lexing followed by classification of
    the top-level words, and so not to depend on what is quoted or commented. */
module KindScanner {
  import opened Common
  import D = DbApi

  /** The character classes of the implementation language. */
  datatype Alphabet = Alphabet(isAlpha: char -> bool, isAlnum: char -> bool, upper: string -> string)

  const MARKS := ['\'', '"', '`', '[', ']', '(', ')', ';', '-', '/', '*', '\n', ' ', '\t', '\r']

  /** Letters are alphanumeric, and the marks of SQL are not. */
  ghost predicate Sane(a: Alphabet)
  {
    && (forall c: char :: a.isAlpha(c) ==> a.isAlnum(c))
    && (forall c | c in MARKS :: !a.isAlnum(c))
  }

  predicate WordStart(a: Alphabet, c: char)
  {
    a.isAlpha(c) || c == '_'
  }

  predicate WordChar(a: Alphabet, c: char)
  {
    a.isAlnum(c) || c == '_'
  }

  predicate Opener(c: char)
  {
    c == '\'' || c == '"' || c == '`' || c == '['
  }

  function Closing(c: char): char
  {
    if c == '[' then ']' else c
  }

  // ------------------------------------------------------------------ first phase: lexing

  datatype Lexeme = Comment | Quoted | Open | Close | Semicolon | Word(text: string) | Other

  datatype Lexed<T> = Lexed(value: T) | Unterminated

  /** The first place where `pattern` occurs. */
  function IndexOf(s: string, pattern: string): (r: Option<nat>)
    ensures r.Some? ==> r.value + |pattern| <= |s|
  {
    if pattern <= s then Some(0)
    else if s == [] then None
    else Plus(1, IndexOf(s[1..], pattern))
  }

  /** It is an occurrence, and there is none before it. */
  lemma {:induction false} IndexOfIsFirst(s: string, pattern: string, k: nat)
    requires k <= |s|
    ensures IndexOf(s, pattern) == Some(k) ==> pattern <= s[k..]
    ensures pattern <= s[k..] ==> IndexOf(s, pattern).Some? && IndexOf(s, pattern).value <= k
  {
    if k == 0 {
      assert s[0..] == s;
    } else {
      assert s[1..][k - 1..] == s[k..];
      IndexOfIsFirst(s[1..], pattern, k - 1);
    }
  }

  /** How much of `s`, which follows an opening quote, belongs to the quoted text.  A doubled
      closing quote stays inside, except for brackets. */
  function QuoteLength(s: string, closing: char): (r: Option<nat>)
    ensures r.Some? ==> 1 <= r.value <= |s| && s[r.value - 1] == closing
  {
    if s == [] then None
    else if s[0] != closing then Plus(1, QuoteLength(s[1..], closing))
    else if closing != ']' && |s| > 1 && s[1] == closing then Plus(2, QuoteLength(s[2..], closing))
    else Some(1)
  }

  function Plus(n: nat, r: Option<nat>): Option<nat>
  {
    if r.None? then None else Some(n + r.value)
  }

  function WordLength(a: Alphabet, s: string): (n: nat)
    ensures n <= |s| && (forall k | 0 <= k < n :: WordChar(a, s[k])) && (n < |s| ==> !WordChar(a, s[n]))
  {
    if s == [] || !WordChar(a, s[0]) then 0 else 1 + WordLength(a, s[1..])
  }

  /** The first lexeme and its length. */
  function First(a: Alphabet, s: string): (r: Lexed<(Lexeme, nat)>)
    requires s != []
    ensures r.Lexed? ==> 1 <= r.value.1 <= |s|
  {
    if "--" <= s then
      Lexed((Comment, if IndexOf(s, "\n").None? then |s| else (assert s[0] == '-'; IndexOf(s, "\n").value)))
    else if "/*" <= s then
      if IndexOf(s[2..], "*/").None? then Unterminated else Lexed((Comment, IndexOf(s[2..], "*/").value + 4))
    else if Opener(s[0]) then
      if QuoteLength(s[1..], Closing(s[0])).None? then Unterminated
      else Lexed((Quoted, QuoteLength(s[1..], Closing(s[0])).value + 1))
    else if s[0] == '(' then Lexed((Open, 1))
    else if s[0] == ')' then Lexed((Close, 1))
    else if s[0] == ';' then Lexed((Semicolon, 1))
    else if WordStart(a, s[0]) then
      Lexed((Word(s[..1 + WordLength(a, s[1..])]), 1 + WordLength(a, s[1..])))
    else Lexed((Other, 1))
  }

  function Lex(a: Alphabet, s: string): Lexed<seq<Lexeme>>
    decreases |s|
  {
    if s == [] then Lexed([])
    else match First(a, s)
      case Unterminated => Unterminated
      case Lexed((lexeme, n)) =>
        match Lex(a, s[n..])
        case Unterminated => Unterminated
        case Lexed(rest) => Lexed([lexeme] + rest)
  }

  // ---------------------------------------------------------- second phase: classification

  /** What one lexeme does to the words and semicolons outside parentheses and to the depth. */
  function Passed(a: Alphabet, lexeme: Lexeme, words: seq<string>, depth: int): (seq<string>, int)
  {
    match lexeme
    case Open => (words, depth + 1)
    case Close => (words, depth - 1)
    case Semicolon => (if depth == 0 then words + [";"] else words, depth)
    case Word(text) => (if depth == 0 then words + [a.upper(text)] else words, depth)
    case _ => (words, depth)
  }

  function TopLevel(a: Alphabet, lexemes: seq<Lexeme>, words: seq<string>, depth: int): (seq<string>, int)
    decreases lexemes
  {
    if lexemes == [] then (words, depth)
    else
      var (w, d) := Passed(a, lexemes[0], words, depth);
      TopLevel(a, lexemes[1..], w, d)
  }

  /** Trailing semicolons do not count. */
  function Trimmed(words: seq<string>): (r: seq<string>)
    ensures r <= words && (r != [] ==> r[|r| - 1] != ";")
    ensures forall k | |r| <= k < |words| :: words[k] == ";"
  {
    if words != [] && words[|words| - 1] == ";" then Trimmed(words[..|words| - 1]) else words
  }

  function FirstOf(words: seq<string>, among: seq<string>): (r: string)
    ensures r == "" || r in among
  {
    if words == [] then "" else if words[0] in among then words[0] else FirstOf(words[1..], among)
  }

  function Classify(words: seq<string>, depth: int): D.Kind
  {
    var w := Trimmed(words);
    if w == [] || ";" in w || depth != 0 then D.Unclassified(D.ProgrammingError)
    else if "RETURNING" in w then D.Unclassified(D.NotSupportedError)
    else
      var kind := if w[0] == "WITH" then FirstOf(w[1..], ["SELECT", "INSERT", "UPDATE", "DELETE", "REPLACE"]) else w[0];
      if kind in ["SELECT", "VALUES"] then D.QueryKind
      else if kind in ["INSERT", "UPDATE", "DELETE", "REPLACE", "CREATE", "DROP", "ALTER"] then D.WriteKind
      else D.Unclassified(D.NotSupportedError)
  }

  /** The kind of a text of which `words` and `depth` were found before `s`. */
  function Continued(a: Alphabet, s: string, words: seq<string>, depth: int): D.Kind
  {
    match Lex(a, s)
    case Unterminated => D.Unclassified(D.ProgrammingError)
    case Lexed(lexemes) => Classify(TopLevel(a, lexemes, words, depth).0, TopLevel(a, lexemes, words, depth).1)
  }

  function Meaning(a: Alphabet, sql: string): D.Kind
  {
    Continued(a, sql, [], 0)
  }

  // ---------------------------------------------------- the same, said without either phase

  /** A text as it stands between quotes: its closing marks are doubled. */
  function Doubled(u: string, closing: char): string
  {
    if u == [] then [] else (if u[0] == closing then [closing, closing] else [u[0]]) + Doubled(u[1..], closing)
  }

  /** `q` is a quoted text, with its marks, when `rest` follows.  Brackets know no doubling. */
  ghost predicate QuotedAs(q: string, rest: string, u: string)
    requires q != []
  {
    var c := if q[0] == '[' then ']' else q[0];
    && q == [q[0]] + (Doubled(u, c) + [c])
    && if c == ']' then c !in u else rest == [] || rest[0] != c
  }

  /** `p` is a piece of text of this kind when `rest` follows. */
  ghost predicate Piece(a: Alphabet, p: string, rest: string, lexeme: Lexeme)
  {
    p != [] &&
    if "--" <= p + rest then lexeme == Comment && '\n' !in p && (rest == [] || rest[0] == '\n')
    else if "/*" <= p + rest then
      && lexeme == Comment && |p| >= 4 && "*/" <= p[|p| - 2..]
      && forall k | 2 <= k < |p| - 2 :: !("*/" <= p[k..])
    else if p[0] in ['\'', '"', '`', '['] then lexeme == Quoted && exists u :: QuotedAs(p, rest, u)
    else if p[0] == '(' then lexeme == Open && |p| == 1
    else if p[0] == ')' then lexeme == Close && |p| == 1
    else if p[0] == ';' then lexeme == Semicolon && |p| == 1
    else if a.isAlpha(p[0]) || p[0] == '_' then
      && lexeme == Word(p)
      && (forall c | c in p[1..] :: a.isAlnum(c) || c == '_')
      && (rest == [] || !(a.isAlnum(rest[0]) || rest[0] == '_'))
    else lexeme == Other && |p| == 1
  }

  /** The text is these pieces one after the other. */
  ghost predicate Reads(a: Alphabet, s: string, pieces: seq<string>, lexemes: seq<Lexeme>)
    decreases |pieces|
  {
    if pieces == [] then s == [] && lexemes == []
    else
      && lexemes != [] && pieces[0] <= s && Piece(a, pieces[0], s[|pieces[0]|..], lexemes[0])
      && Reads(a, s[|pieces[0]|..], pieces[1..], lexemes[1..])
  }

  lemma {:induction false} QuoteReads(u: string, closing: char, rest: string)
    requires if closing == ']' then closing !in u else rest == [] || rest[0] != closing
    ensures QuoteLength(Doubled(u, closing) + [closing] + rest, closing) == Some(|Doubled(u, closing)| + 1)
  {
    var s := Doubled(u, closing) + [closing] + rest;
    if u != [] {
      var m := if u[0] == closing then 2 else 1;
      assert s[m..] == Doubled(u[1..], closing) + [closing] + rest;
      QuoteReads(u[1..], closing, rest);
    } else {
      assert s == [closing] + rest;
    }
  }

  /** The text `s`, which follows an opening mark, reads up to its closing mark as `u`. */
  ghost predicate ClosesAs(s: string, closing: char, n: nat, u: string)
  {
    && n <= |s| && s[..n] == Doubled(u, closing) + [closing]
    && if closing == ']' then closing !in u else s[n..] == [] || s[n] != closing
  }

  lemma ClosesLater(s: string, closing: char, m: nat, n: nat, x: char, u: string)
    requires m <= |s| && ClosesAs(s[m..], closing, n, u)
    requires s[..m] == (if x == closing then [closing, closing] else [x]) && (closing == ']' ==> x != closing)
    ensures ClosesAs(s, closing, m + n, [x] + u)
  {
    assert ([x] + u)[1..] == u;
    assert s[..m + n] == s[..m] + s[m..][..n] && s[m..][n..] == s[m + n..];
    assert Doubled([x] + u, closing) == s[..m] + Doubled(u, closing);
  }

  lemma {:induction false} QuoteSays(s: string, closing: char) returns (u: string)
    requires QuoteLength(s, closing).Some?
    ensures ClosesAs(s, closing, QuoteLength(s, closing).value, u)
  {
    if s[0] != closing {
      u := QuoteSays(s[1..], closing);
      ClosesLater(s, closing, 1, QuoteLength(s[1..], closing).value, s[0], u);
      u := [s[0]] + u;
    } else if closing != ']' && |s| > 1 && s[1] == closing {
      u := QuoteSays(s[2..], closing);
      ClosesLater(s, closing, 2, QuoteLength(s[2..], closing).value, closing, u);
      u := [closing] + u;
    } else {
      u := [];
    }
  }

  lemma QuotePiece(a: Alphabet, s: string, n: nat)
    requires 1 <= n <= |s| && Opener(s[0])
    ensures QuoteLength(s[1..], Closing(s[0])) == Some(n - 1) && n > 1 <==> exists u :: QuotedAs(s[..n], s[n..], u)
  {
    var c := Closing(s[0]);
    if QuoteLength(s[1..], c) == Some(n - 1) {
      var u := QuoteSays(s[1..], c);
      QuotedClosed(s, n, u);
    }
    forall u | QuotedAs(s[..n], s[n..], u) ensures QuoteLength(s[1..], c) == Some(n - 1) && n > 1 {
      ClosedQuoted(s, n, u);
    }
  }

  lemma QuotedClosed(s: string, n: nat, u: string)
    requires 1 <= n <= |s| && ClosesAs(s[1..], Closing(s[0]), n - 1, u)
    ensures QuotedAs(s[..n], s[n..], u)
  {
    assert s[1..][..n - 1] == s[1..n] && s[1..][n - 1..] == s[n..];
    assert s[..n] == [s[0]] + s[1..n];
  }

  lemma ClosedQuoted(s: string, n: nat, u: string)
    requires 1 <= n <= |s| && QuotedAs(s[..n], s[n..], u)
    ensures QuoteLength(s[1..], Closing(s[0])) == Some(n - 1) && n > 1
  {
    var c := Closing(s[0]);
    QuoteReads(u, c, s[n..]);
    assert s[1..] == s[..n][1..] + s[n..];
    assert s[..n][1..] == Doubled(u, c) + [c];
  }

  lemma LinePiece(a: Alphabet, s: string, lexeme: Lexeme, n: nat)
    requires 1 <= n <= |s| && "--" <= s
    ensures First(a, s) == Lexed((lexeme, n)) <==> Piece(a, s[..n], s[n..], lexeme)
  {
    assert s[..n] + s[n..] == s;
    assert s[0] == '-';
    forall k | 0 <= k < |s| ensures "\n" <= s[k..] <==> s[k] == '\n' {
    }
    forall k | 0 <= k <= |s| ensures IndexOf(s, "\n") == Some(k) ==> "\n" <= s[k..] {
      IndexOfIsFirst(s, "\n", k);
    }
    if IndexOf(s, "\n").Some? {
      var end := IndexOf(s, "\n").value;
      forall k | 0 <= k < end ensures s[k] != '\n' { IndexOfIsFirst(s, "\n", k); }
      assert n > end ==> s[end] in s[..n];
    } else {
      forall k | 0 <= k < |s| ensures s[k] != '\n' { IndexOfIsFirst(s, "\n", k); }
    }
  }

  lemma BlockPiece(a: Alphabet, s: string, lexeme: Lexeme, n: nat)
    requires 1 <= n <= |s| && "/*" <= s
    ensures First(a, s) == Lexed((lexeme, n)) <==> Piece(a, s[..n], s[n..], lexeme)
  {
    assert s[..n] + s[n..] == s && s[0] == '/';
    var t := s[2..];
    forall k | 2 <= k <= n - 2 ensures "*/" <= s[..n][k..] <==> "*/" <= t[k - 2..] {
      assert t[k - 2..] == s[k..] && s[..n][k..] == s[k..n] && s[k..n] + s[n..] == s[k..];
    }
    if IndexOf(t, "*/") == Some(n - 4) && n >= 4 {
      IndexOfIsFirst(t, "*/", n - 4);
      forall k | 2 <= k < n - 2 ensures !("*/" <= s[..n][k..]) { IndexOfIsFirst(t, "*/", k - 2); }
    }
    if Piece(a, s[..n], s[n..], lexeme) {
      IndexOfIsFirst(t, "*/", n - 4);
      var k := IndexOf(t, "*/").value;
      IndexOfIsFirst(t, "*/", k);
      var p := s[..n][k + 2..];
      assert k == n - 4;
    }
  }

  lemma WordPiece(a: Alphabet, s: string, n: nat)
    requires 1 <= n <= |s|
    ensures n == 1 + WordLength(a, s[1..]) <==>
            (forall c | c in s[..n][1..] :: WordChar(a, c)) && (s[n..] == [] || !WordChar(a, s[n]))
  {
    var t, m := s[1..], WordLength(a, s[1..]);
    assert s[..n][1..] == t[..n - 1];
    if n - 1 < m { assert WordChar(a, t[n - 1]) && t[n - 1] == s[n]; }
    if m < n - 1 { assert t[m] in t[..n - 1]; }
  }

  lemma PlainPiece(a: Alphabet, s: string, lexeme: Lexeme, n: nat)
    requires 1 <= n <= |s| && !("--" <= s) && !("/*" <= s) && !Opener(s[0])
    ensures First(a, s) == Lexed((lexeme, n)) <==> Piece(a, s[..n], s[n..], lexeme)
  {
    assert s[..n] + s[n..] == s && s[..n][0] == s[0];
    if s[0] != '(' && s[0] != ')' && s[0] != ';' && WordStart(a, s[0]) {
      WordPiece(a, s, n);
    }
  }

  /** The first lexeme is the only piece that the text can start with. */
  lemma PieceMeaning(a: Alphabet, s: string, lexeme: Lexeme, n: nat)
    requires 1 <= n <= |s|
    ensures First(a, s) == Lexed((lexeme, n)) <==> Piece(a, s[..n], s[n..], lexeme)
  {
    assert s[..n] + s[n..] == s && s[..n][0] == s[0];
    if "--" <= s {
      LinePiece(a, s, lexeme, n);
    } else if "/*" <= s {
      BlockPiece(a, s, lexeme, n);
    } else if Opener(s[0]) {
      QuotePiece(a, s, n);
    } else {
      PlainPiece(a, s, lexeme, n);
    }
  }

  lemma {:induction false} LexReads(a: Alphabet, s: string) returns (pieces: seq<string>)
    requires Lex(a, s).Lexed?
    ensures Reads(a, s, pieces, Lex(a, s).value)
    decreases |s|
  {
    if s == [] {
      pieces := [];
    } else {
      var (lexeme, n) := First(a, s).value;
      var rest := LexReads(a, s[n..]);
      PieceMeaning(a, s, lexeme, n);
      pieces := [s[..n]] + rest;
      assert pieces[1..] == rest && Lex(a, s).value == [lexeme] + Lex(a, s[n..]).value;
    }
  }

  lemma {:induction false} ReadsLex(a: Alphabet, s: string, pieces: seq<string>, lexemes: seq<Lexeme>)
    requires Reads(a, s, pieces, lexemes)
    ensures Lex(a, s) == Lexed(lexemes)
    decreases |pieces|
  {
    if pieces != [] {
      var n := |pieces[0]|;
      assert pieces[0] == s[..n];
      PieceMeaning(a, s, lexemes[0], n);
      ReadsLex(a, s[n..], pieces[1..], lexemes[1..]);
      assert lexemes == [lexemes[0]] + lexemes[1..];
    }
  }

  ghost predicate Cuts(a: Alphabet, s: string, lexemes: seq<Lexeme>)
  {
    exists pieces :: Reads(a, s, pieces, lexemes)
  }

  /** Lexing is the one way to cut the text into pieces, and fails exactly if there is none. */
  lemma LexMeaning(a: Alphabet, s: string, lexemes: seq<Lexeme>)
    ensures Lex(a, s) == Lexed(lexemes) <==> Cuts(a, s, lexemes)
  {
    if Lex(a, s) == Lexed(lexemes) {
      var pieces := LexReads(a, s);
      assert Reads(a, s, pieces, lexemes);
    }
    forall pieces | Reads(a, s, pieces, lexemes) ensures Lex(a, s) == Lexed(lexemes) {
      ReadsLex(a, s, pieces, lexemes);
    }
  }

  /** How many parentheses are open behind the first `i` lexemes. */
  function Depth(lexemes: seq<Lexeme>, i: nat): int
    requires i <= |lexemes|
  {
    multiset(lexemes[..i])[Open] as int - multiset(lexemes[..i])[Close] as int
  }

  /** Words and semicolons outside all parentheses count. */
  predicate Counts(lexemes: seq<Lexeme>, i: int)
  {
    0 <= i < |lexemes| && Depth(lexemes, i) == 0 && (lexemes[i].Word? || lexemes[i].Semicolon?)
  }

  /** These are the words and semicolons that count, in order, the words in upper case; `at` is
      where they stand. */
  ghost predicate Selects(a: Alphabet, lexemes: seq<Lexeme>, at: seq<nat>, words: seq<string>)
  {
    && |at| == |words| && (forall j, k | 0 <= j < k < |at| :: at[j] < at[k])
    && (forall i | 0 <= i < |lexemes| :: Counts(lexemes, i) <==> i in at)
    && forall k | 0 <= k < |at| ::
         && at[k] < |lexemes|
         && words[k] == match lexemes[at[k]] case Word(text) => a.upper(text) case _ => ";"
  }

  lemma {:induction false} TopLevelSnoc(a: Alphabet, lexemes: seq<Lexeme>, x: Lexeme, words: seq<string>, depth: int)
    ensures TopLevel(a, lexemes + [x], words, depth) ==
            Passed(a, x, TopLevel(a, lexemes, words, depth).0, TopLevel(a, lexemes, words, depth).1)
    decreases lexemes
  {
    var all := lexemes + [x];
    if lexemes == [] {
      assert all[1..] == [];
    } else {
      assert all[1..] == lexemes[1..] + [x];
      var (w, d) := Passed(a, lexemes[0], words, depth);
      TopLevelSnoc(a, lexemes[1..], x, w, d);
    }
  }

  lemma {:induction false} TopLevelMeaning(a: Alphabet, lexemes: seq<Lexeme>) returns (at: seq<nat>)
    ensures Selects(a, lexemes, at, TopLevel(a, lexemes, [], 0).0)
    ensures TopLevel(a, lexemes, [], 0).1 == Depth(lexemes, |lexemes|)
  {
    if lexemes == [] {
      at := [];
    } else {
      var n := |lexemes| - 1;
      var front, x := lexemes[..n], lexemes[n];
      assert lexemes == front + [x];
      TopLevelSnoc(a, front, x, [], 0);
      at := TopLevelMeaning(a, front);
      var (words, depth) := TopLevel(a, front, [], 0);
      DepthSnoc(front, x);
      assert front[..n] == front && lexemes[..n] == front;
      at := SelectsSnoc(a, front, x, at, words);
    }
  }

  lemma DepthSnoc(lexemes: seq<Lexeme>, x: Lexeme)
    ensures var all := lexemes + [x];
            Depth(all, |all|) == Depth(lexemes, |lexemes|) + if x == Open then 1 else if x == Close then -1 else 0
  {
    var all := lexemes + [x];
    assert all[..|all|] == all && lexemes[..|lexemes|] == lexemes;
  }

  lemma CountsSnoc(lexemes: seq<Lexeme>, x: Lexeme)
    ensures Depth(lexemes + [x], |lexemes|) == Depth(lexemes, |lexemes|)
    ensures forall i | 0 <= i < |lexemes| :: Counts(lexemes + [x], i) <==> Counts(lexemes, i)
  {
    forall i | 0 <= i <= |lexemes| ensures Depth(lexemes + [x], i) == Depth(lexemes, i) {
      assert (lexemes + [x])[..i] == lexemes[..i];
    }
  }

  lemma SelectsSnoc(a: Alphabet, lexemes: seq<Lexeme>, x: Lexeme, at: seq<nat>, words: seq<string>)
    returns (more: seq<nat>)
    requires Selects(a, lexemes, at, words)
    ensures Selects(a, lexemes + [x], more, Passed(a, x, words, Depth(lexemes, |lexemes|)).0)
  {
    var all, n := lexemes + [x], |lexemes|;
    CountsSnoc(lexemes, x);
    assert all[n] == x && forall k | 0 <= k < |at| :: all[at[k]] == lexemes[at[k]];
    if Counts(all, n) {
      more := at + [n];
      forall i | 0 <= i < |all| ensures Counts(all, i) <==> i in more {
        if i < n { assert Counts(lexemes, i) <==> i in at; }
      }
    } else {
      more := at;
      forall i | 0 <= i < |all| ensures Counts(all, i) <==> i in more {
        if i < n { assert Counts(lexemes, i) <==> i in at; }
      }
    }
  }

  // ------------------------------------------------------------------- the kinds, by position

  /** Balanced, not empty, and with no semicolon but at the end. */
  ghost predicate OneStatement(words: seq<string>, depth: int)
  {
    depth == 0 && exists n :: n > 0 && SemicolonsFrom(words, n)
  }

  ghost predicate SemicolonsFrom(words: seq<string>, n: nat)
  {
    n <= |words| && forall k | 0 <= k < |words| :: words[k] == ";" <==> n <= k
  }

  /** The statement is one of `verb`, also behind a WITH: there the first of the five verbs that
      can follow one decides. */
  ghost predicate StatementOf(words: seq<string>, verb: string)
  {
    && words != []
    && if words[0] != "WITH" then words[0] == verb
       else exists k :: 0 < k < |words| && words[k] == verb && FollowsWith(verb)
                        && forall j | 0 < j < k :: !FollowsWith(words[j])
  }

  predicate FollowsWith(word: string)
  {
    word == "SELECT" || word == "INSERT" || word == "UPDATE" || word == "DELETE" || word == "REPLACE"
  }

  ghost predicate IsQuery(words: seq<string>)
  {
    StatementOf(words, "SELECT") || StatementOf(words, "VALUES")
  }

  ghost predicate IsWrite(words: seq<string>)
  {
    || StatementOf(words, "INSERT") || StatementOf(words, "UPDATE") || StatementOf(words, "DELETE")
    || StatementOf(words, "REPLACE") || StatementOf(words, "CREATE") || StatementOf(words, "DROP")
    || StatementOf(words, "ALTER")
  }

  /** What the words and the parentheses of a text make it. */
  ghost predicate KindMeans(words: seq<string>, depth: int, kind: D.Kind)
  {
    && (kind == D.Unclassified(D.ProgrammingError) <==> !OneStatement(words, depth))
    && (kind == D.QueryKind <==> OneStatement(words, depth) && "RETURNING" !in words && IsQuery(words))
    && (kind == D.WriteKind <==> OneStatement(words, depth) && "RETURNING" !in words && IsWrite(words))
    && (kind == D.Unclassified(D.NotSupportedError) <==>
          OneStatement(words, depth) && ("RETURNING" in words || (!IsQuery(words) && !IsWrite(words))))
  }

  lemma {:induction false} FirstOfMeaning(words: seq<string>, among: seq<string>) returns (k: nat)
    ensures k <= |words| && forall j | 0 <= j < k :: words[j] !in among
    ensures k < |words| ==> words[k] in among && FirstOf(words, among) == words[k]
    ensures k == |words| ==> FirstOf(words, among) == ""
  {
    if words == [] || words[0] in among {
      k := 0;
    } else {
      k := FirstOfMeaning(words[1..], among);
      k := k + 1;
    }
  }

  /** The word that decides, behind a WITH or without one. */
  lemma VerbMeaning(words: seq<string>, trimmed: seq<string>, verb: string)
    requires trimmed != [] && trimmed <= words && forall k | |trimmed| <= k < |words| :: words[k] == ";"
    requires verb != ";" && verb != "" && verb != "WITH"
    ensures var first := if trimmed[0] == "WITH"
                         then FirstOf(trimmed[1..], ["SELECT", "INSERT", "UPDATE", "DELETE", "REPLACE"])
                         else trimmed[0];
            StatementOf(words, verb) <==> first == verb
  {
    if trimmed[0] == "WITH" {
      var among := ["SELECT", "INSERT", "UPDATE", "DELETE", "REPLACE"];
      assert forall w: string :: w in among <==> FollowsWith(w);
      var k := FirstOfMeaning(trimmed[1..], among);
      forall j | 0 < j < |trimmed| ensures trimmed[1..][j - 1] == words[j] {
      }
      if k < |trimmed| - 1 {
        assert words[k + 1] == trimmed[1..][k];
      }
    }
  }

  lemma OneStatementMeaning(words: seq<string>, depth: int)
    ensures OneStatement(words, depth) <==> depth == 0 && Trimmed(words) != [] && ";" !in Trimmed(words)
  {
    var t := Trimmed(words);
    if depth == 0 && t != [] && ";" !in t {
      forall k | 0 <= k < |t| ensures words[k] != ";" { assert words[k] == t[k] && t[k] in t; }
      assert SemicolonsFrom(words, |t|);
    }
    if OneStatement(words, depth) {
      var n :| n > 0 && SemicolonsFrom(words, n);
      assert words[n - 1] != ";";
      assert |t| == n;
    }
  }

  lemma ClassifyMeaning(words: seq<string>, depth: int)
    ensures KindMeans(words, depth, Classify(words, depth))
  {
    var t := Trimmed(words);
    OneStatementMeaning(words, depth);
    if OneStatement(words, depth) {
      assert "RETURNING" in words <==> "RETURNING" in t by {
        if "RETURNING" in words {
          var k :| 0 <= k < |words| && words[k] == "RETURNING";
          assert t[k] == words[k];
        }
        assert forall w | w in t :: w in words;
      }
      VerbMeaning(words, t, "SELECT");
      VerbMeaning(words, t, "VALUES");
      VerbMeaning(words, t, "INSERT");
      VerbMeaning(words, t, "UPDATE");
      VerbMeaning(words, t, "DELETE");
      VerbMeaning(words, t, "REPLACE");
      VerbMeaning(words, t, "CREATE");
      VerbMeaning(words, t, "DROP");
      VerbMeaning(words, t, "ALTER");
    }
  }

  /** The text can be read, and these are its words and semicolons outside parentheses. */
  ghost predicate ReadsAs(a: Alphabet, sql: string, words: seq<string>, depth: int)
  {
    exists pieces, lexemes, at ::
      Reads(a, sql, pieces, lexemes) && Selects(a, lexemes, at, words) && depth == Depth(lexemes, |lexemes|)
  }

  lemma SelectsOnce(a: Alphabet, lexemes: seq<Lexeme>, at: seq<nat>, words: seq<string>, at': seq<nat>,
                    words': seq<string>)
    requires Selects(a, lexemes, at, words) && Selects(a, lexemes, at', words')
    ensures words == words'
  {
    AscendingIsUniqueNat(at, at');
  }

  lemma AscendingIsUniqueNat(x: seq<nat>, y: seq<nat>)
    requires forall j, k | 0 <= j < k < |x| :: x[j] < x[k]
    requires forall j, k | 0 <= j < k < |y| :: y[j] < y[k]
    requires forall i: nat :: i in x <==> i in y
    ensures x == y
  {
    var a: seq<int>, b: seq<int> := x, y;
    assert Elements(a) == Elements(b) by {
      forall i ensures i in Elements(a) <==> i in Elements(b) {
      }
    }
    AscendingIsUnique(a, b);
  }

  /** What a text is, from its pieces. */
  ghost predicate TextMeans(a: Alphabet, sql: string, kind: D.Kind)
  {
    if exists words, depth :: ReadsAs(a, sql, words, depth) then
      forall words, depth | ReadsAs(a, sql, words, depth) :: KindMeans(words, depth, kind)
    else kind == D.Unclassified(D.ProgrammingError)
  }

  /** Lexing and classification come to what the pieces of the text make it; a text that cannot
      be cut into pieces is an error. */
  lemma MeaningOfText(a: Alphabet, sql: string)
    ensures TextMeans(a, sql, Meaning(a, sql))
  {
    if Lex(a, sql).Lexed? {
      var lexemes := Lex(a, sql).value;
      var pieces := LexReads(a, sql);
      var at := TopLevelMeaning(a, lexemes);
      var (found, depth) := TopLevel(a, lexemes, [], 0);
      assert ReadsAs(a, sql, found, depth);
      ClassifyMeaning(found, depth);
      forall words, d | ReadsAs(a, sql, words, d) ensures words == found && d == depth {
        var pieces', lexemes', at' :| Reads(a, sql, pieces', lexemes') && Selects(a, lexemes', at', words)
                                      && d == Depth(lexemes', |lexemes'|);
        ReadsLex(a, sql, pieces', lexemes');
        SelectsOnce(a, lexemes, at, found, at', words);
      }
    } else {
      forall words, d | ReadsAs(a, sql, words, d) ensures false {
        var pieces', lexemes' :| Reads(a, sql, pieces', lexemes');
        ReadsLex(a, sql, pieces', lexemes');
      }
    }
  }

  // ------------------------------------------------------------------------- the one pass

  /** What taking one lexeme off the front does. */
  lemma TakeLexeme(a: Alphabet, s: string, words: seq<string>, depth: int, lexeme: Lexeme, n: nat)
    requires s != [] && First(a, s) == Lexed((lexeme, n))
    ensures var (w, d) := Passed(a, lexeme, words, depth);
            Continued(a, s, words, depth) == Continued(a, s[n..], w, d)
  {
    if Lex(a, s[n..]).Lexed? {
      var rest := Lex(a, s[n..]).value;
      assert ([lexeme] + rest)[1..] == rest;
    }
  }

  /** Inside parentheses a word may as well be passed character by character. */
  lemma {:induction false} PassWord(a: Alphabet, s: string, words: seq<string>, depth: int)
    requires Sane(a) && depth != 0
    ensures Continued(a, s, words, depth) == Continued(a, s[WordLength(a, s)..], words, depth)
  {
    if s != [] && WordChar(a, s[0]) {
      NotMark(a, s[0]);
      TakeLexeme(a, s, words, depth, First(a, s).value.0, First(a, s).value.1);
      if !WordStart(a, s[0]) {
        PassWord(a, s[1..], words, depth);
      }
      assert s[1..][WordLength(a, s[1..])..] == s[WordLength(a, s)..];
    }
  }

  lemma NotMark(a: Alphabet, c: char)
    requires Sane(a) && WordChar(a, c)
    ensures c !in MARKS
  {
  }

  lemma PassChar(a: Alphabet, s: string, words: seq<string>, depth: int)
    requires Sane(a) && depth != 0 && s != [] && WordStart(a, s[0])
    ensures Continued(a, s, words, depth) == Continued(a, s[1..], words, depth)
  {
    PassWord(a, s, words, depth);
    PassWord(a, s[1..], words, depth);
    assert s[1..][WordLength(a, s[1..])..] == s[WordLength(a, s)..];
  }

  /** `str.find(pattern, start)`, or -1. */
  function Find(s: string, pattern: string, start: nat): int
    requires start <= |s|
  {
    match IndexOf(s[start..], pattern)
    case None => -1
    case Some(k) => start + k
  }

  predicate StartsWith(s: string, pattern: string, i: nat)
    requires i <= |s|
  {
    pattern <= s[i..]
  }

  lemma Suffix(sql: string, i: nat, n: nat)
    requires i + n <= |sql|
    ensures sql[i..][n..] == sql[i + n..] && sql[i..][..n] == sql[i..i + n]
  {
  }

  /** `TakeLexeme` at a position of the whole text. */
  lemma StepOver(a: Alphabet, sql: string, i: nat, words: seq<string>, depth: int, lexeme: Lexeme, j: nat,
                 moreWords: seq<string>, newDepth: int)
    requires i < j && i < |sql| && First(a, sql[i..]) == Lexed((lexeme, j - i))
    requires Passed(a, lexeme, words, depth) == (moreWords, newDepth)
    ensures j <= |sql|
    ensures Continued(a, sql[i..], words, depth) == Continued(a, sql[j..], moreWords, newDepth)
  {
    var s, n := sql[i..], j - i;
    assert s[n..] == sql[j..];
    TakeLexeme(a, s, words, depth, lexeme, n);
  }

  lemma NoLexeme(a: Alphabet, s: string, words: seq<string>, depth: int)
    requires s != [] && First(a, s).Unterminated?
    ensures Continued(a, s, words, depth) == D.Unclassified(D.ProgrammingError)
  {
  }

  /** The branches of the loop for comments and quoted text; None where the text ends too
      early. */
  method SkipRegion(a: Alphabet, sql: string, i: nat, ghost words: seq<string>, ghost depth: int)
    returns (end: Option<nat>)
    requires i < |sql| && (StartsWith(sql, "--", i) || StartsWith(sql, "/*", i) || Opener(sql[i]))
    ensures end.None? ==> Continued(a, sql[i..], words, depth) == D.Unclassified(D.ProgrammingError)
    ensures end.Some? ==>
              && i < end.value <= |sql|
              && Continued(a, sql[i..], words, depth) == Continued(a, sql[end.value..], words, depth)
  {
    if StartsWith(sql, "--", i) {
      var k := Find(sql, "\n", i);
      if k >= 0 { IndexOfIsFirst(sql[i..], "\n", k - i); }
      assert sql[i..][0] == '-';
      end := Some(if k < 0 then |sql| else k);
      StepOver(a, sql, i, words, depth, Comment, end.value, words, depth);
    } else if StartsWith(sql, "/*", i) {
      Suffix(sql, i, 2);
      var k := Find(sql, "*/", i + 2);
      if k < 0 {
        NoLexeme(a, sql[i..], words, depth);
        return None;
      }
      end := Some(k + 2);
      StepOver(a, sql, i, words, depth, Comment, end.value, words, depth);
    } else {
      Suffix(sql, i, 1);
      end := ScanQuote(sql, i);
      if end.None? {
        NoLexeme(a, sql[i..], words, depth);
      } else {
        StepOver(a, sql, i, words, depth, Quoted, end.value, words, depth);
      }
    }
  }

  lemma StepMark(a: Alphabet, sql: string, i: nat, words: seq<string>, depth: int)
    requires Sane(a) && i < |sql| && !StartsWith(sql, "--", i) && !StartsWith(sql, "/*", i) && !Opener(sql[i])
    requires !(depth == 0 && (sql[i] == ';' || WordStart(a, sql[i])))
    ensures var after := if sql[i] == '(' then depth + 1 else if sql[i] == ')' then depth - 1 else depth;
            Continued(a, sql[i..], words, depth) == Continued(a, sql[i + 1..], words, after)
  {
    var c := sql[i];
    if c == '(' {
      StepOver(a, sql, i, words, depth, Open, i + 1, words, depth + 1);
    } else if c == ')' {
      StepOver(a, sql, i, words, depth, Close, i + 1, words, depth - 1);
    } else if WordStart(a, c) {
      NotMark(a, c);
      PassChar(a, sql[i..], words, depth);
      Suffix(sql, i, 1);
    } else {
      StepOver(a, sql, i, words, depth, if c == ';' then Semicolon else Other, i + 1, words, depth);
    }
  }

  lemma StepWord(a: Alphabet, sql: string, i: nat, words: seq<string>, end: nat)
    requires Sane(a) && i < |sql| && WordStart(a, sql[i]) && end == i + 1 + WordLength(a, sql[i + 1..])
    ensures end <= |sql|
    ensures Continued(a, sql[i..], words, 0) == Continued(a, sql[end..], words + [a.upper(sql[i..end])], 0)
  {
    NotMark(a, sql[i]);
    Suffix(sql, i, 1);
    Suffix(sql, i, end - i);
    StepOver(a, sql, i, words, 0, Word(sql[i..end]), end, words + [a.upper(sql[i..end])], 0);
  }

  /** `_kind` */
  method ScanKind(a: Alphabet, sql: string) returns (kind: D.Kind)
    requires Sane(a)
    ensures kind == Meaning(a, sql) && TextMeans(a, sql, kind)
  {
    MeaningOfText(a, sql);
    var words: seq<string> := [];
    var depth, i := 0, 0;
    ghost var meaning := Meaning(a, sql);
    assert sql[0..] == sql;
    while i < |sql|
      invariant 0 <= i <= |sql|
      invariant Continued(a, sql[i..], words, depth) == meaning
    {
      var c := sql[i];
      if StartsWith(sql, "--", i) || StartsWith(sql, "/*", i) || Opener(c) {
        var end := SkipRegion(a, sql, i, words, depth);
        if end.None? {
          return D.Unclassified(D.ProgrammingError);
        }
        i := end.value;
      } else if c == ';' && depth == 0 {
        StepOver(a, sql, i, words, depth, Semicolon, i + 1, words + [";"], depth);
        words := words + [";"];
        i := i + 1;
      } else if WordStart(a, c) && depth == 0 {
        var end := ScanWord(a, sql, i);
        StepWord(a, sql, i, words, end);
        words := words + [a.upper(sql[i..end])];
        i := end;
      } else {
        StepMark(a, sql, i, words, depth);
        depth := if c == '(' then depth + 1 else if c == ')' then depth - 1 else depth;
        i := i + 1;
      }
    }
    kind := ClassifyWords(words, depth);
  }

  /** What `_kind` does once the text is read. */
  method ClassifyWords(found: seq<string>, depth: int) returns (kind: D.Kind)
    ensures kind == Classify(found, depth) && KindMeans(found, depth, kind)
  {
    ClassifyMeaning(found, depth);
    var words := found;
    while words != [] && words[|words| - 1] == ";"
      invariant Trimmed(words) == Trimmed(found)
    {
      words := words[..|words| - 1];
    }
    if words == [] || ";" in words || depth != 0 {
      return D.Unclassified(D.ProgrammingError);
    }
    if "RETURNING" in words {
      return D.Unclassified(D.NotSupportedError);
    }
    var first := words[0];
    if first == "WITH" {
      first := FirstOf(words[1..], ["SELECT", "INSERT", "UPDATE", "DELETE", "REPLACE"]);
    }
    if first in ["SELECT", "VALUES"] {
      return D.QueryKind;
    }
    if first in ["INSERT", "UPDATE", "DELETE", "REPLACE", "CREATE", "DROP", "ALTER"] {
      return D.WriteKind;
    }
    kind := D.Unclassified(D.NotSupportedError);
  }

  lemma QuoteStep(sql: string, i: nat, closing: char)
    requires i < |sql|
    ensures Plus(i, QuoteLength(sql[i..], closing)) ==
            if sql[i] != closing then Plus(i + 1, QuoteLength(sql[i + 1..], closing))
            else if closing != ']' && i + 1 < |sql| && sql[i + 1] == closing then
              Plus(i + 2, QuoteLength(sql[i + 2..], closing))
            else Some(i + 1)
  {
    assert sql[i..][1..] == sql[i + 1..];
    if i + 1 < |sql| { assert sql[i..][2..] == sql[i + 2..]; }
  }

  /** The inner loop over a quoted region. */
  method ScanQuote(sql: string, start: nat) returns (end: Option<nat>)
    requires start < |sql|
    ensures end == Plus(start + 1, QuoteLength(sql[start + 1..], Closing(sql[start])))
  {
    var closing := Closing(sql[start]);
    var i := start + 1;
    while i < |sql|
      invariant start + 1 <= i <= |sql|
      invariant Plus(start + 1, QuoteLength(sql[start + 1..], closing)) == Plus(i, QuoteLength(sql[i..], closing))
    {
      QuoteStep(sql, i, closing);
      if sql[i] == closing {
        i := i + 1;
        if closing != ']' && i < |sql| && sql[i] == closing {
          i := i + 1;
          continue;
        }
        return Some(i);
      }
      i := i + 1;
    }
    end := None;
  }

  /** The inner loop over a word. */
  method ScanWord(a: Alphabet, sql: string, start: nat) returns (end: nat)
    requires start < |sql|
    ensures end == start + 1 + WordLength(a, sql[start + 1..])
  {
    end := start + 1;
    while end < |sql| && WordChar(a, sql[end])
      invariant start + 1 <= end <= |sql|
      invariant end + WordLength(a, sql[end..]) == start + 1 + WordLength(a, sql[start + 1..])
    {
      end := end + 1;
    }
  }

  // ------------------------------------------------ what the classification cannot depend on

  /** Lexing `s + r` stops between `s` and `r`. */
  ghost predicate Boundary(a: Alphabet, s: string, r: string)
    decreases |s|
  {
    s == [] || (First(a, s + r).Lexed? && First(a, s + r).value.1 <= |s| &&
            Boundary(a, s[First(a, s + r).value.1..], r))
  }

  /** `q` is one lexeme of kind `lexeme` when `b` follows. */
  ghost predicate Region(a: Alphabet, q: string, b: string, lexeme: Lexeme)
  {
    q != [] && First(a, q + b) == Lexed((lexeme, |q|))
  }

  /** Replacing what follows a boundary may change what its first character means to the
      text before it, but not if it is the same character, or a blank for a comment mark. */
  ghost predicate Interchangeable(a: Alphabet, c: char, d: char)
  {
    c == d || ((c == '-' || c == '/') && Blank(d))
  }

  predicate Blank(c: char)
  {
    c == ' ' || c == '\n' || c == '\t' || c == '\r'
  }

  lemma {:induction false} IndexBefore(s: string, r: string, q: string, pattern: string)
    requires IndexOf(s + r, pattern).Some? && IndexOf(s + r, pattern).value + |pattern| <= |s|
    ensures IndexOf(s + q, pattern) == IndexOf(s + r, pattern)
  {
    assert (s + q)[..|pattern|] == s[..|pattern|] == (s + r)[..|pattern|];
    if !(pattern <= s + r) {
      assert (s + r)[1..] == s[1..] + r && (s + q)[1..] == s[1..] + q;
      IndexBefore(s[1..], r, q, pattern);
    }
  }

  /** The end of a line may be where the following text starts. */
  lemma {:induction false} LineBefore(s: string, r: string, q: string)
    requires r != [] && q != [] && (r[0] == q[0] || r[0] != '\n')
    requires IndexOf(s + r, "\n").Some? && IndexOf(s + r, "\n").value <= |s|
    ensures IndexOf(s + q, "\n") == IndexOf(s + r, "\n")
  {
    if s == [] {
      assert s + r == r && s + q == q;
      assert r[0..1] == [r[0]];
    } else if s[0] != '\n' {
      assert (s + r)[1..] == s[1..] + r && (s + q)[1..] == s[1..] + q;
      LineBefore(s[1..], r, q);
    }
  }

  lemma {:induction false} QuoteBefore(s: string, r: string, q: string, closing: char)
    requires r != [] && q != [] && (r[0] == q[0] || q[0] != closing)
    requires QuoteLength(s + r, closing).Some? && QuoteLength(s + r, closing).value <= |s|
    ensures QuoteLength(s + q, closing) == QuoteLength(s + r, closing)
  {
    var m := if s[0] == closing then 2 else 1;
    if |s| >= m {
      assert (s + r)[m..] == s[m..] + r && (s + q)[m..] == s[m..] + q;
      if s[0] != closing || (closing != ']' && s[1] == closing) {
        QuoteBefore(s[m..], r, q, closing);
      }
    }
  }

  lemma {:induction false} WordBefore(a: Alphabet, s: string, r: string, q: string)
    requires r != [] && q != [] && (r[0] == q[0] || !WordChar(a, q[0]))
    requires WordLength(a, s + r) <= |s|
    ensures WordLength(a, s + q) == WordLength(a, s + r)
  {
    if s == [] {
      assert s + r == r && s + q == q;
    } else {
      assert (s + r)[1..] == s[1..] + r && (s + q)[1..] == s[1..] + q;
      if WordChar(a, s[0]) {
        WordBefore(a, s[1..], r, q);
      }
    }
  }

  lemma CommentBefore(a: Alphabet, s: string, r: string, q: string)
    requires s != [] && r != [] && q != [] && Interchangeable(a, r[0], q[0])
    requires "--" <= s + r || "/*" <= s + r
    requires First(a, s + r).Lexed? && First(a, s + r).value.1 <= |s|
    ensures First(a, s + q) == First(a, s + r)
  {
    var x, y := s + r, s + q;
    if "--" <= x && IndexOf(x, "\n").Some? {
      var k := IndexOf(x, "\n").value;
      IndexOfIsFirst(x, "\n", k);
      assert x[k..][0] == x[k];
    }
    assert |s| >= 2 && x[..2] == s[..2] == y[..2];
    if "--" <= x {
      LineBefore(s, r, q);
    } else {
      assert x[2..] == s[2..] + r && y[2..] == s[2..] + q;
      IndexBefore(s[2..], r, q, "*/");
    }
  }

  /** What precedes a boundary is lexed the same whatever interchangeable text follows. */
  lemma FirstBefore(a: Alphabet, s: string, r: string, q: string)
    requires Sane(a) && s != [] && r != [] && q != [] && Interchangeable(a, r[0], q[0])
    requires First(a, s + r).Lexed? && First(a, s + r).value.1 <= |s|
    ensures First(a, s + q) == First(a, s + r)
  {
    if "--" <= s + r || "/*" <= s + r {
      CommentBefore(a, s, r, q);
    } else {
      var x, y := s + r, s + q;
      assert x[1..] == s[1..] + r && y[1..] == s[1..] + q;
      StillNoComment(s, r, q);
      if Opener(s[0]) {
        QuoteBefore(s[1..], r, q, Closing(s[0]));
      } else if WordStart(a, s[0]) {
        assert Blank(q[0]) ==> !WordChar(a, q[0]) by { assert Blank(q[0]) ==> q[0] in MARKS; }
        WordBefore(a, s[1..], r, q);
        var n := WordLength(a, s[1..] + r);
        assert x[..1 + n] == s[..1 + n] == y[..1 + n];
      }
    }
  }

  lemma StillNoComment(s: string, r: string, q: string)
    requires s != [] && r != [] && q != []
    requires r[0] == q[0] || Blank(q[0])
    requires !("--" <= s + r) && !("/*" <= s + r)
    ensures !("--" <= s + q) && !("/*" <= s + q)
  {
    if |s| == 1 {
      assert (s + q)[1] == q[0] && (s + r)[1] == r[0];
    } else {
      assert (s + q)[1] == s[1] && (s + r)[1] == s[1];
    }
  }

  /** The two texts come to the same, whatever was before them. */
  ghost predicate Alike(a: Alphabet, r: string, q: string)
  {
    forall words: seq<string>, depth: int :: Continued(a, r, words, depth) == Continued(a, q, words, depth)
  }

  /** If what follows a boundary classifies alike, so does the whole text. */
  lemma {:induction false} SameAfterBoundary(a: Alphabet, s: string, r: string, q: string, words: seq<string>,
          depth: int)
    requires Sane(a) && r != [] && q != [] && Interchangeable(a, r[0], q[0]) && Boundary(a, s, r)
    requires Alike(a, r, q)
    ensures Continued(a, s + r, words, depth) == Continued(a, s + q, words, depth)
    decreases |s|
  {
    if s == [] {
      assert s + r == r && s + q == q;
    } else {
      FirstBefore(a, s, r, q);
      var (lexeme, n) := First(a, s + r).value;
      assert (s + r)[n..] == s[n..] + r && (s + q)[n..] == s[n..] + q;
      TakeLexeme(a, s + r, words, depth, lexeme, n);
      TakeLexeme(a, s + q, words, depth, lexeme, n);
      var (w, d) := Passed(a, lexeme, words, depth);
      SameAfterBoundary(a, s[n..], r, q, w, d);
    }
  }

  lemma RegionVanishes(a: Alphabet, q: string, b: string, lexeme: Lexeme, words: seq<string>, depth: int)
    requires Region(a, q, b, lexeme) && (lexeme == Quoted || lexeme == Comment || lexeme == Other)
    ensures Continued(a, q + b, words, depth) == Continued(a, b, words, depth)
  {
    TakeLexeme(a, q + b, words, depth, lexeme, |q|);
    assert (q + b)[|q|..] == b;
  }

  /** Replacing one closed quoted region by another that opens with the same mark never changes
      the classification, whatever the two contain. */
  lemma QuotedTextIsOpaque(a: Alphabet, s: string, q: string, p: string, b: string)
    requires Sane(a) && Region(a, q, b, Quoted) && Region(a, p, b, Quoted) && q[0] == p[0]
    requires Boundary(a, s, q + b)
    ensures Meaning(a, s + (q + b)) == Meaning(a, s + (p + b))
  {
    assert (q + b)[0] == q[0] && (p + b)[0] == p[0];
    assert Alike(a, q + b, p + b) by {
      Vanishes(a, q, b, Quoted);
      Vanishes(a, p, b, Quoted);
    }
    SameAfterBoundary(a, s, q + b, p + b, [], 0);
  }

  lemma Vanishes(a: Alphabet, q: string, b: string, l: Lexeme)
    requires Region(a, q, b, l) && (l == Quoted || l == Comment || l == Other)
    ensures Alike(a, q + b, b)
  {
    forall words: seq<string>, depth: int ensures Continued(a, q + b, words, depth) == Continued(a, b, words, depth) {
      RegionVanishes(a, q, b, l, words, depth);
    }
  }

  lemma BlankIsOther(a: Alphabet, c: char, b: string)
    requires Sane(a) && Blank(c)
    ensures Region(a, [c], b, Other)
  {
    assert c in MARKS;
    assert ([c] + b)[0] == c;
  }

  lemma {:induction false} BlanksVanish(a: Alphabet, w: string, b: string)
    requires Sane(a) && forall c | c in w :: Blank(c)
    ensures Alike(a, w + b, b)
  {
    if w == [] {
      assert w + b == b;
    } else {
      assert w[0] in w;
      var rest := w[1..] + b;
      assert w + b == [w[0]] + rest;
      BlankIsOther(a, w[0], rest);
      Vanishes(a, [w[0]], rest, Other);
      BlanksVanish(a, w[1..], b);
    }
  }

  /** Replacing a comment by white space never changes the classification. */
  lemma CommentIsBlank(a: Alphabet, s: string, c: string, w: string, b: string)
    requires Sane(a) && Region(a, c, b, Comment) && Boundary(a, s, c + b)
    requires w != [] && forall d | d in w :: Blank(d)
    ensures Meaning(a, s + (c + b)) == Meaning(a, s + (w + b))
  {
    assert (c + b)[0] == c[0] && (w + b)[0] == w[0] && w[0] in w;
    assert Alike(a, c + b, w + b) by {
      Vanishes(a, c, b, Comment);
      BlanksVanish(a, w, b);
    }
    SameAfterBoundary(a, s, c + b, w + b, [], 0);
  }

  function NextDepth(l: Lexeme, depth: int): int
  {
    if l.Open? then depth + 1 else if l.Close? then depth - 1 else depth
  }

  function FinalDepth(lexemes: seq<Lexeme>, depth: int): int
  {
    if lexemes == [] then depth else FinalDepth(lexemes[1..], NextDepth(lexemes[0], depth))
  }

  /** Every lexeme is met inside some parentheses. */
  predicate Inside(lexemes: seq<Lexeme>, depth: int)
  {
    lexemes == [] || (depth != 0 && Inside(lexemes[1..], NextDepth(lexemes[0], depth)))
  }

  lemma {:induction false} InsideVanishes(a: Alphabet, inner: seq<Lexeme>, rest: seq<Lexeme>, words: seq<string>,
          depth: int)
    requires Inside(inner, depth)
    ensures TopLevel(a, inner + rest, words, depth) == TopLevel(a, rest, words, FinalDepth(inner, depth))
  {
    if inner == [] {
      assert inner + rest == rest;
    } else {
      assert (inner + rest)[1..] == inner[1..] + rest;
      InsideVanishes(a, inner[1..], rest, words, NextDepth(inner[0], depth));
    }
  }

  /** A balanced group in parentheses adds nothing, whatever words and semicolons it holds. */
  lemma GroupVanishes(a: Alphabet, inner: seq<Lexeme>, rest: seq<Lexeme>, words: seq<string>, depth: int)
    requires depth >= 0 && Inside(inner, depth + 1) && FinalDepth(inner, depth + 1) == depth + 1
    ensures TopLevel(a, [Open] + inner + [Close] + rest, words, depth) == TopLevel(a, rest, words, depth)
  {
    var all := [Open] + inner + [Close] + rest;
    assert all[1..] == inner + ([Close] + rest);
    InsideVanishes(a, inner, [Close] + rest, words, depth + 1);
    assert ([Close] + rest)[1..] == rest;
  }
}
