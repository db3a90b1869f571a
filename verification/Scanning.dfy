/** The scanner: source text, read from a position that only moves forward, becomes tokens that cover it. */
module Scanning {
  import opened Base

  // A symbol or keyword is named by its spelling.
  datatype Kind = Fixed(text: string) | Identifier | Int32 | Int64 | Float64 | Str

  /** A token points into the source; an error token points at a message instead. */
  datatype Token = Token(kind: Kind, at: nat, length: nat, line: nat) | Eof(line: nat) | Error(message: string,
      line: nat)

  predicate IsDigit(c: char) {
    '0' <= c <= '9'
  }

  predicate IsAlpha(c: char) {
    'a' <= c <= 'z' || 'A' <= c <= 'Z' || c == '_'
  }

  predicate IsWord(c: char) {
    IsAlpha(c) || IsDigit(c)
  }

  function Newlines(s: string, n: nat): nat
    requires n <= |s|
  {
    if n == 0 then 0 else Newlines(s, n - 1) + (if s[n - 1] == '\n' then 1 else 0)
  }

  predicate Pair(s: string, i: nat, a: char, b: char) {
    i + 1 < |s| && s[i] == a && s[i + 1] == b
  }

  predicate IsSpace(c: char) {
    c == ' ' || c == '\r' || c == '\t' || c == '\n'
  }

  /** Where a comment to the end of the line stops. */
  function LineEnd(s: string, i: nat): (e: nat)
    requires i <= |s|
    ensures i <= e <= |s|
    ensures forall j :: i <= j < e ==> s[j] != '\n'
    ensures e < |s| ==> s[e] == '\n'
    decreases |s| - i
  {
    if i == |s| || s[i] == '\n' then i else LineEnd(s, i + 1)
  }

  /** Past the first end of a comment at or after i. */
  function CommentEnd(s: string, i: nat): (e: Option<nat>)
    requires i <= |s|
    ensures e.Some? ==> i + 2 <= e.value <= |s| && Pair(s, e.value - 2, '*', '/')
    ensures e.Some? ==> forall j :: i <= j < e.value - 2 ==> !Pair(s, j, '*', '/')
    ensures e.None? ==> forall j :: i <= j < |s| ==> !Pair(s, j, '*', '/')
    decreases |s| - i
  {
    if i == |s| then None else if Pair(s, i, '*', '/') then Some(i + 2) else CommentEnd(s, i + 1)
  }

  /** The part of the source is white space and whole comments. */
  ghost predicate Blank(s: string, from: nat, to: nat)
    decreases |s| - from
  {
    if from >= to || from >= |s| then from == to && to <= |s|
    else if IsSpace(s[from]) then Blank(s, from + 1, to)
    else if Pair(s, from, '/', '/') then LineEnd(s, from) > from && Blank(s, LineEnd(s, from), to)
    else if Pair(s, from, '/', '*') then
      var e := CommentEnd(s, from + 2);
      e.Some? && Blank(s, e.value, to)
    else false
  }

  /** Whether white space or a comment starts here. */
  predicate Skips(s: string, i: nat) {
    i < |s| && (IsSpace(s[i]) || Pair(s, i, '/', '/') || Pair(s, i, '/', '*'))
  }

  lemma {:induction false} BlankThen(s: string, a: nat, b: nat, c: nat)
    requires Blank(s, a, b) && Blank(s, b, c) && b <= c
    ensures Blank(s, a, c)
    decreases |s| - a
  {
    if a < b {
      if IsSpace(s[a]) { BlankThen(s, a + 1, b, c); }
      else if Pair(s, a, '/', '/') { BlankOrder(s, LineEnd(s, a), b); BlankThen(s, LineEnd(s, a), b, c); }
      else { BlankOrder(s, CommentEnd(s, a + 2).value, b); BlankThen(s, CommentEnd(s, a + 2).value, b, c); }
    }
  }

  lemma {:induction false} BlankOrder(s: string, a: nat, b: nat)
    requires Blank(s, a, b)
    ensures a <= b <= |s|
    decreases |s| - a
  {
    if a < b {
      if IsSpace(s[a]) { BlankOrder(s, a + 1, b); }
      else if Pair(s, a, '/', '/') { BlankOrder(s, LineEnd(s, a), b); }
      else { BlankOrder(s, CommentEnd(s, a + 2).value, b); }
    }
  }

  /** Two blanks from the same place that cannot go on end at the same place. */
  lemma {:induction false} BlankIsUnique(s: string, a: nat, b: nat, c: nat)
    requires Blank(s, a, b) && Blank(s, a, c) && !Skips(s, b) && !Skips(s, c)
    ensures b == c
    decreases |s| - a
  {
    if a < b && a < c {
      if IsSpace(s[a]) { BlankIsUnique(s, a + 1, b, c); }
      else if Pair(s, a, '/', '/') { BlankIsUnique(s, LineEnd(s, a), b, c); }
      else { BlankIsUnique(s, CommentEnd(s, a + 2).value, b, c); }
    }
  }

  /** Where a run of word characters, of digits, or of characters other than a quote stops. */
  function WordEnd(s: string, i: nat): (e: nat)
    requires i <= |s|
    ensures i <= e <= |s| && (e < |s| ==> !IsWord(s[e])) && forall j :: i <= j < e ==> IsWord(s[j])
    decreases |s| - i
  {
    if i < |s| && IsWord(s[i]) then WordEnd(s, i + 1) else i
  }

  function DigitsEnd(s: string, i: nat): (e: nat)
    requires i <= |s|
    ensures i <= e <= |s| && (e < |s| ==> !IsDigit(s[e])) && forall j :: i <= j < e ==> IsDigit(s[j])
    decreases |s| - i
  {
    if i < |s| && IsDigit(s[i]) then DigitsEnd(s, i + 1) else i
  }

  function QuoteAt(s: string, i: nat): (e: nat)
    requires i <= |s|
    ensures i <= e <= |s| && (e < |s| ==> s[e] == '"') && forall j :: i <= j < e ==> s[j] != '"'
    decreases |s| - i
  {
    if i < |s| && s[i] != '"' then QuoteAt(s, i + 1) else i
  }

  /** Operators and punctuation of one, two and three characters; an underscore is a word. */
  predicate One(a: char) {
    a in "()[]{}?:;,.%-+/*|&^~!=<>"
  }

  predicate Two(a: char, b: char) {
    || (b == '=' && a in "%-+/*|&^~!=<>")
    || (a == ':' && b == ':')
    || (b == '>' && (a == '-' || a == '='))
    || (a == b && (a == '<' || a == '>'))
  }

  predicate Three(a: char, b: char, c: char) {
    a == b && (a == '<' || a == '>') && c == '='
  }

  predicate IsSymbol(u: string) {
    || (|u| == 1 && One(u[0]))
    || (|u| == 2 && Two(u[0], u[1]))
    || (|u| == 3 && Three(u[0], u[1], u[2]))
  }

  /** The longest symbol that starts here. */
  ghost predicate LongestSymbol(s: string, from: nat, to: nat) {
    && from < to <= |s| && IsSymbol(s[from..to])
    && forall e :: to < e <= |s| ==> !IsSymbol(s[from..e])
  }

  const KEYWORDS: set<string> :=
    {"and", "break", "class", "continue", "else", "enum", "false", "for", "if", "loop", "match", "None", "or", "return",
     "true", "var", "while", "self", "super", "struct"}

  /** What a word is. Every word that starts with fn counts as that keyword. */
  function WordKind(w: string): Kind {
    if |w| >= 2 && w[..2] == "fn" then Fixed("fn")
    else if w in KEYWORDS || w == "_" then Fixed(w)
    else Identifier
  }

  function Decimal(digits: string): int {
    if digits == "" then 0
    else 10 * Decimal(digits[..|digits| - 1]) + (digits[|digits| - 1] as int - '0' as int)
  }

  function NumberKind(digits: string): Kind {
    if Decimal(digits) > 0x7FFF_FFFF then Int64 else Int32
  }

  // The symbols and the letters, one by one.
  const ONES: set<char> := {'(', ')', '[', ']', '{', '}', '?', ':', ';', ',', '.', '%', '-', '+', '/', '*', '|', '&',
    '^', '~', '!', '=', '<', '>'}
  const TWOS: set<(char, char)> := {('%', '='), ('-', '='), ('+', '='), ('/', '='), ('*', '='), ('|', '='),
    ('&', '='), ('^', '='), ('~', '='), ('!', '='), ('=', '='), ('<', '='), ('>', '='), (':', ':'), ('-', '>'),
    ('=', '>'), ('<', '<'), ('>', '>')}
  const LOWER: set<char> := {'a', 'b', 'c', 'd', 'e', 'f', 'g', 'h', 'i', 'j', 'k', 'l', 'm', 'n', 'o', 'p', 'q',
    'r', 's', 't', 'u', 'v', 'w', 'x', 'y', 'z'}
  const UPPER: set<char> := {'A', 'B', 'C', 'D', 'E', 'F', 'G', 'H', 'I', 'J', 'K', 'L', 'M', 'N', 'O', 'P', 'Q',
    'R', 'S', 'T', 'U', 'V', 'W', 'X', 'Y', 'Z'}

  lemma {:induction false} SymbolsAre(a: char, b: char, c: char)
    ensures IsSymbol([a]) <==> a in ONES
    ensures IsSymbol([a, b]) <==> (a, b) in TWOS
    ensures IsSymbol([a, b, c]) <==> (a, b, c) in {('<', '<', '='), ('>', '>', '=')}
    ensures forall u :: |u| > 3 || u == "" ==> !IsSymbol(u)
  {
    OneIs(a);
    TwoIs(a, b);
    hide One, Two;
  }

  lemma {:induction false} OneIs(a: char)
    ensures One(a) <==> a in ONES
  {
  }

  lemma {:induction false} TwoIs(a: char, b: char)
    ensures Two(a, b) <==> (a, b) in TWOS
  {
  }

  lemma {:induction false} WordsAreOf(c: char)
    ensures IsAlpha(c) <==> c in LOWER || c in UPPER || c == '_'
    ensures IsDigit(c) <==> c in {'0', '1', '2', '3', '4', '5', '6', '7', '8', '9'}
    ensures IsWord(c) <==> c in LOWER || c in UPPER || c == '_' || IsDigit(c)
  {
  }

  /** The number that digits stand for, place by place. */
  function Worth(digits: string): int {
    if digits == "" then 0 else (digits[0] as int - 48) * Ten(|digits| - 1) + Worth(digits[1..])
  }

  function Ten(n: nat): nat {
    if n == 0 then 1 else 10 * Ten(n - 1)
  }

  lemma {:induction false} DecimalIsWorth(digits: string)
    ensures Decimal(digits) == Worth(digits)
    decreases |digits|
  {
    if digits != "" {
      var n := |digits| - 1;
      DecimalIsWorth(digits[..n]);
      WorthLast(digits[..n], digits[n]);
      assert digits == digits[..n] + [digits[n]];
    }
  }

  lemma {:induction false} WorthLast(digits: string, c: char)
    ensures Worth(digits + [c]) == 10 * Worth(digits) + (c as int - 48)
    decreases |digits|
  {
    if digits == "" {
      assert (digits + [c])[1..] == "";
      assert Ten(0) == 1;
    } else {
      WorthLast(digits[1..], c);
      assert (digits + [c])[1..] == digits[1..] + [c];
      assert Ten(|digits|) == 10 * Ten(|digits| - 1);
      Shifted(digits[0] as int - 48, Ten(|digits| - 1));
    }
  }

  lemma {:induction false} Shifted(d: int, t: int)
    ensures d * (10 * t) == 10 * (d * t)
  {
  }

  /** An integer literal has 32 bits when its number is at most 2147483647, and otherwise 64. */
  lemma {:induction false} NumberIs(digits: string)
    ensures NumberKind(digits) == if Worth(digits) <= 2147483647 then Int32 else Int64
  {
    DecimalIsWorth(digits);
  }

  /** The lexeme from one place to another and what it is; which of the forms it has is decided by its first
      character. */
  ghost predicate Lexeme(s: string, from: nat, to: nat, kind: Kind) {
    from < to <= |s| && !Skips(s, from) &&
    if IsAlpha(s[from]) then to == WordEnd(s, from) && kind == WordKind(s[from..to])
    else if IsDigit(s[from]) then
      var m := DigitsEnd(s, from);
      if m < |s| && s[m] == '.' then m + 1 < to == DigitsEnd(s, m + 1) && kind == Float64
      else to == m && kind == NumberKind(s[from..to])
    else if s[from] == '"' then to == QuoteAt(s, from + 1) + 1 && kind == Str
    else LongestSymbol(s, from, to) && kind == Fixed(s[from..to])
  }

  /** From one place, only one lexeme can be read. */
  lemma {:induction false} LexemeIsUnique(s: string, from: nat, a: nat, b: nat, j: Kind, k: Kind)
    requires Lexeme(s, from, a, j) && Lexeme(s, from, b, k)
    ensures a == b && j == k
  {
  }

  function Start(s: string, t: Token): nat {
    if t.Token? then t.at else |s|
  }

  function End(s: string, t: Token): nat {
    if t.Token? then t.at + t.length else |s|
  }

  /** A token that follows a given place: only blanks between, its lexeme right, its line that of its last character. */
  ghost predicate Follows(s: string, place: nat, t: Token) {
    && !t.Error?
    && Blank(s, place, Start(s, t)) && End(s, t) <= |s|
    && t.line == 1 + Newlines(s, End(s, t))
    && (t.Token? ==> Lexeme(s, t.at, t.at + t.length, t.kind))
  }

  ghost predicate Covers(s: string, tokens: seq<Token>) {
    forall i :: 0 <= i < |tokens| ==> Follows(s, Before(s, tokens, i), tokens[i])
  }

  /** Where the token before one ends. */
  function Before(s: string, tokens: seq<Token>, i: nat): nat
    requires i <= |tokens|
  {
    if i == 0 then 0 else End(s, tokens[i - 1])
  }

  /** Tokens are disjoint and in order. */
  lemma {:induction false} CoversInOrder(s: string, tokens: seq<Token>, i: nat, j: nat)
    requires Covers(s, tokens) && i < j < |tokens|
    ensures End(s, tokens[i]) <= Start(s, tokens[j])
    decreases j
  {
    hide Follows, Covers;
    CoversAt(s, tokens, j, End(s, tokens[j - 1]));
    InOrder(s, End(s, tokens[j - 1]), tokens[j]);
    if i < j - 1 {
      CoversInOrder(s, tokens, i, j - 1);
      CoversAt(s, tokens, j - 1, Before(s, tokens, j - 1));
      InOrder(s, Before(s, tokens, j - 1), tokens[j - 1]);
    }
  }

  lemma {:induction false} InOrder(s: string, place: nat, t: Token)
    requires Follows(s, place, t)
    ensures place <= Start(s, t) <= End(s, t) <= |s|
  {
    hide Lexeme;
    BlankOrder(s, place, Start(s, t));
  }

  /** Only one list of tokens covers a source, as far as both go. */
  lemma {:induction false} CoverIsUnique(s: string, a: seq<Token>, b: seq<Token>, i: nat)
    requires Covers(s, a) && Covers(s, b) && i < |a| && i < |b|
    ensures a[i] == b[i]
    decreases i
  {
    hide Follows, Covers;
    if i > 0 { CoverIsUnique(s, a, b, i - 1); }
    var place := Before(s, a, i);
    CoversAt(s, a, i, place);
    CoversAt(s, b, i, place);
    SameToken(s, place, a[i], b[i]);
  }

  lemma {:induction false} CoversAt(s: string, tokens: seq<Token>, i: nat, place: nat)
    requires Covers(s, tokens) && i < |tokens| && place == Before(s, tokens, i)
    ensures Follows(s, place, tokens[i])
  {
    hide Follows;
  }

  lemma {:induction false} SameToken(s: string, place: nat, a: Token, b: Token)
    requires Follows(s, place, a) && Follows(s, place, b)
    ensures a == b
  {
    hide Lexeme, Blank;
    StartIsStop(s, a);
    StartIsStop(s, b);
    BlankIsUnique(s, place, Start(s, a), Start(s, b));
    SameStart(s, place, a, b);
  }

  lemma {:induction false} StartIsStop(s: string, t: Token)
    requires t.Token? ==> Lexeme(s, t.at, t.at + t.length, t.kind)
    ensures !Skips(s, Start(s, t)) && (t.Token? ==> Start(s, t) < |s|)
  {
  }

  lemma {:induction false} SameStart(s: string, place: nat, a: Token, b: Token)
    requires Follows(s, place, a) && Follows(s, place, b) && Start(s, a) == Start(s, b)
    ensures a == b
  {
    hide Blank, Lexeme;
    StartIsStop(s, a);
    StartIsStop(s, b);
    if a.Token? && b.Token? { LexemeIsUnique(s, a.at, a.at + a.length, b.at + b.length, a.kind, b.kind); }
  }

  /** A comment that does not end, or digits and a point with no digit after it: here the scanner gives up. */
  ghost predicate OpenComment(s: string, i: nat) {
    Pair(s, i, '/', '*') && CommentEnd(s, i + 2).None?
  }

  ghost predicate BadNumber(s: string, i: nat) {
    i < |s| && IsDigit(s[i]) &&
    var m := DigitsEnd(s, i);
    m < |s| && s[m] == '.' && (m + 1 == |s| || !IsDigit(s[m + 1]))
  }

  ghost predicate Stuck(s: string, place: nat) {
    exists p: nat :: Blank(s, place, p) && (OpenComment(s, p) || (!Skips(s, p) && BadNumber(s, p)))
  }

  /** What is no token: a string that does not end, and a character that no token starts with. */
  ghost predicate Refused(s: string, p: nat, next: nat, message: string) {
    p < next <= |s| && !Skips(s, p) &&
    if s[p] == '"' then QuoteAt(s, p + 1) == |s| == next && message == "Unterminated string."
    else !IsAlpha(s[p]) && !IsDigit(s[p]) && !One(s[p]) && next == p + 1 && message == "Unexpected character."
  }

  /** One reading from a place: a token or an error, and the place after it. */
  ghost predicate Reads(s: string, place: nat, t: Token, next: nat) {
    if t.Error? then
      (exists p: nat :: Blank(s, place, p) && Refused(s, p, next, t.message)) && next <= |s|
          && t.line == 1 + Newlines(s, next)
    else Follows(s, place, t) && next == End(s, t)
  }

  /** From one place, only one thing can be read. */
  lemma {:induction false} ReadsIsUnique(s: string, place: nat, t: Token, n: nat, u: Token, m: nat)
    requires Reads(s, place, t, n) && Reads(s, place, u, m)
    ensures t == u && n == m
  {
    hide Blank, Lexeme, Refused, Newlines;
    if !t.Error? && !u.Error? {
      SameToken(s, place, t, u);
    } else if t.Error? && u.Error? {
      var p: nat :| Blank(s, place, p) && Refused(s, p, n, t.message);
      var q: nat :| Blank(s, place, q) && Refused(s, q, m, u.message);
      RefusedStops(s, p, n, t.message);
      RefusedStops(s, q, m, u.message);
      BlankIsUnique(s, place, p, q);
      RefusedIsUnique(s, p, n, t.message, m, u.message);
    } else if t.Error? {
      NotBoth(s, place, t, n, u);
    } else {
      NotBoth(s, place, u, m, t);
    }
  }

  lemma {:induction false} RefusedStops(s: string, p: nat, next: nat, message: string)
    requires Refused(s, p, next, message)
    ensures !Skips(s, p) && p < |s|
  {
  }

  lemma {:induction false} RefusedIsUnique(s: string, p: nat, n: nat, j: string, m: nat, k: string)
    requires Refused(s, p, n, j) && Refused(s, p, m, k)
    ensures n == m && j == k
  {
  }

  lemma {:induction false} NotBoth(s: string, place: nat, e: Token, n: nat, t: Token)
    requires e.Error? && !t.Error? && Reads(s, place, e, n)
    ensures !Follows(s, place, t)
  {
    hide Blank, Lexeme, Refused, Newlines;
    if Follows(s, place, t) {
      var p: nat :| Blank(s, place, p) && Refused(s, p, n, e.message);
      RefusedStops(s, p, n, e.message);
      StartIsStop(s, t);
      BlankIsUnique(s, place, p, Start(s, t));
      if t.Token? { RefusedIsNoLexeme(s, p, n, e.message, t.at + t.length, t.kind); }
    }
  }

  lemma {:induction false} RefusedIsNoLexeme(s: string, p: nat, next: nat, message: string, to: nat, kind: Kind)
    requires Refused(s, p, next, message)
    ensures !Lexeme(s, p, to, kind)
  {
    hide One, Two, Three;
    if LongestSymbol(s, p, to) {
      var u := s[p..to];
      if |u| == 2 { TwoIsOne(u[0], u[1]); }
      if |u| == 3 { ThreeIsTwo(u[0], u[1], u[2]); TwoIsOne(u[0], u[1]); }
    }
  }

  lemma {:induction false} TwoIsOne(a: char, b: char)
    requires Two(a, b)
    ensures One(a)
  {
  }

  /** Where the scanner gives up, nothing can be read. */
  lemma {:induction false} StuckIsFinal(s: string, place: nat, t: Token, next: nat)
    requires Stuck(s, place)
    ensures !Reads(s, place, t, next)
  {
    hide Blank, Lexeme, Refused, Newlines, OpenComment, BadNumber, Skips, Stuck;
    if Reads(s, place, t, next) {
      var p := StuckAt(s, place);
      var q: nat;
      if t.Error? {
        q :| Blank(s, place, q) && Refused(s, q, next, t.message);
        RefusedStops(s, q, next, t.message);
      } else {
        q := Start(s, t);
        StartIsStop(s, t);
      }
      if OpenComment(s, p) {
        OpenBlocks(s, place, p, q);
      } else {
        BlankIsUnique(s, place, p, q);
        BadIsNothing(s, p, next, t);
      }
    }
  }

  lemma {:induction false} StuckAt(s: string, place: nat) returns (p: nat)
    requires Stuck(s, place)
    ensures Blank(s, place, p) && (OpenComment(s, p) || (!Skips(s, p) && BadNumber(s, p)))
  {
    p :| Blank(s, place, p) && (OpenComment(s, p) || (!Skips(s, p) && BadNumber(s, p)));
  }

  lemma {:induction false} BadIsNothing(s: string, p: nat, next: nat, t: Token)
    requires BadNumber(s, p)
    ensures t.Error? ==> !Refused(s, p, next, t.message)
    ensures t.Token? && t.at == p ==> !Lexeme(s, p, t.at + t.length, t.kind)
    ensures p < |s|
  {
  }

  /** Nothing past a comment that does not end is reached. */
  lemma {:induction false} OpenBlocks(s: string, place: nat, p: nat, q: nat)
    requires Blank(s, place, p) && OpenComment(s, p) && Blank(s, place, q)
    ensures Skips(s, q)
    decreases |s| - place
  {
    if place < p && place < q {
      if IsSpace(s[place]) { OpenBlocks(s, place + 1, p, q); }
      else if Pair(s, place, '/', '/') { OpenBlocks(s, LineEnd(s, place), p, q); }
      else { OpenBlocks(s, CommentEnd(s, place + 2).value, p, q); }
    }
  }

  /** check_keyword: the rest of a word against the rest of one keyword. */
  function CheckKeyword(w: string, start: nat, rest: string, keyword: string): Kind
    requires start <= |w|
  {
    if |w| == start + |rest| && w[start..] == rest then Fixed(keyword) else Identifier
  }

  /** identifier_type: keywords told apart by their first letters. */
  function Trie(w: string): Kind
    requires w != ""
  {
    match w[0]
    case 'a' => CheckKeyword(w, 1, "nd", "and")
    case 'b' => CheckKeyword(w, 1, "reak", "break")
    case 'c' =>
      if |w| <= 1 then Identifier
      else if w[1] == 'l' then CheckKeyword(w, 2, "ass", "class")
      else if w[1] == 'o' then CheckKeyword(w, 2, "ntinue", "continue")
      else Identifier
    case 'e' =>
      if |w| <= 1 then Identifier
      else if w[1] == 'l' then CheckKeyword(w, 2, "se", "else")
      else if w[1] == 'n' then CheckKeyword(w, 2, "um", "enum")
      else Identifier
    case 'f' =>
      if |w| <= 1 then Identifier
      else if w[1] == 'a' then CheckKeyword(w, 2, "lse", "false")
      else if w[1] == 'o' then CheckKeyword(w, 2, "r", "for")
      else if w[1] == 'n' then Fixed("fn")
      else Identifier
    case 'i' => CheckKeyword(w, 1, "f", "if")
    case 'l' => CheckKeyword(w, 1, "oop", "loop")
    case 'm' => CheckKeyword(w, 1, "atch", "match")
    case 'N' => CheckKeyword(w, 1, "one", "None")
    case 'o' => CheckKeyword(w, 1, "r", "or")
    case 'r' => CheckKeyword(w, 1, "eturn", "return")
    case 't' => CheckKeyword(w, 1, "rue", "true")
    case 'v' => CheckKeyword(w, 1, "ar", "var")
    case 'w' => CheckKeyword(w, 1, "hile", "while")
    case 's' =>
      if |w| <= 1 then Identifier
      else if w[1] == 'e' then CheckKeyword(w, 2, "lf", "self")
      else if w[1] == 'u' then CheckKeyword(w, 2, "per", "super")
      else if w[1] == 't' then CheckKeyword(w, 2, "ruct", "struct")
      else Identifier
    case _ => Identifier
  }

  lemma {:induction false} CheckIs(w: string, start: nat, rest: string, keyword: string)
    requires start <= |w| && start <= |keyword| && w[..start] == keyword[..start] && keyword[start..] == rest
    ensures CheckKeyword(w, start, rest, keyword) == if w == keyword then Fixed(keyword) else Identifier
  {
    assert w == w[..start] + w[start..];
    assert keyword == keyword[..start] + keyword[start..];
  }

  /** Which keyword a word can be, by its first letter. */
  lemma {:induction false} ByLetter(w: string)
    requires w in KEYWORDS
    ensures |w| >= 2 && w[0] in "abcefilmNorstvw" && !(w[0] == 'f' && w[1] == 'n')
    ensures w[0] == 'a' ==> w == "and"
    ensures w[0] == 'b' ==> w == "break"
    ensures w[0] == 'i' ==> w == "if"
    ensures w[0] == 'l' ==> w == "loop"
    ensures w[0] == 'm' ==> w == "match"
    ensures w[0] == 'N' ==> w == "None"
  {
  }

  lemma {:induction false} ByLaterLetter(w: string)
    requires w in KEYWORDS
    ensures |w| >= 2
    ensures w[0] == 'o' ==> w == "or"
    ensures w[0] == 'r' ==> w == "return"
    ensures w[0] == 't' ==> w == "true"
    ensures w[0] == 'v' ==> w == "var"
    ensures w[0] == 'w' ==> w == "while"
  {
  }

  lemma {:induction false} BySecondLetter(w: string)
    requires w in KEYWORDS
    ensures |w| >= 2
    ensures w[0] == 'c' ==> w == if w[1] == 'l' then "class" else "continue"
    ensures w[0] == 'c' ==> w[1] == 'l' || w[1] == 'o'
    ensures w[0] == 'e' ==> w == if w[1] == 'l' then "else" else "enum"
    ensures w[0] == 'e' ==> w[1] == 'l' || w[1] == 'n'
    ensures w[0] == 'f' ==> w == if w[1] == 'a' then "false" else "for"
    ensures w[0] == 'f' ==> w[1] == 'a' || w[1] == 'o'
    ensures w[0] == 's' ==> w == if w[1] == 'e' then "self" else if w[1] == 'u' then "super" else "struct"
    ensures w[0] == 's' ==> w[1] == 'e' || w[1] == 'u' || w[1] == 't'
  {
  }

  /** The letters tell exactly the keywords of the table apart. */
  lemma {:induction false} TrieIsTable(w: string)
    requires w != "" && w != "_"
    ensures Trie(w) == WordKind(w)
  {
    hide CheckKeyword;
    if w in KEYWORDS { ByLetter(w); ByLaterLetter(w); BySecondLetter(w); }
    if |w| >= 2 { assert w[..2] == [w[0], w[1]]; }
    assert w[..1] == [w[0]];
    if w[0] in "cefs" { TwoLetters(w); } else { OneLetter(w); }
  }

  lemma {:induction false} OneLetter(w: string)
    requires w != ""
    ensures w[0] == 'a' ==> CheckKeyword(w, 1, "nd", "and") == if w == "and" then Fixed(w) else Identifier
    ensures w[0] == 'b' ==> CheckKeyword(w, 1, "reak", "break") == if w == "break" then Fixed(w) else Identifier
    ensures w[0] == 'i' ==> CheckKeyword(w, 1, "f", "if") == if w == "if" then Fixed(w) else Identifier
    ensures w[0] == 'l' ==> CheckKeyword(w, 1, "oop", "loop") == if w == "loop" then Fixed(w) else Identifier
    ensures w[0] == 'm' ==> CheckKeyword(w, 1, "atch", "match") == if w == "match" then Fixed(w) else Identifier
    ensures w[0] == 'N' ==> CheckKeyword(w, 1, "one", "None") == if w == "None" then Fixed(w) else Identifier
    ensures w[0] == 'o' ==> CheckKeyword(w, 1, "r", "or") == if w == "or" then Fixed(w) else Identifier
    ensures w[0] == 'r' ==> CheckKeyword(w, 1, "eturn", "return") == if w == "return" then Fixed(w) else Identifier
    ensures w[0] == 't' ==> CheckKeyword(w, 1, "rue", "true") == if w == "true" then Fixed(w) else Identifier
    ensures w[0] == 'v' ==> CheckKeyword(w, 1, "ar", "var") == if w == "var" then Fixed(w) else Identifier
    ensures w[0] == 'w' ==> CheckKeyword(w, 1, "hile", "while") == if w == "while" then Fixed(w) else Identifier
  {
    hide CheckKeyword;
    assert w[..1] == [w[0]];
    match w[0]
    case 'a' => CheckIs(w, 1, "nd", "and");
    case 'b' => CheckIs(w, 1, "reak", "break");
    case 'i' => CheckIs(w, 1, "f", "if");
    case 'l' => CheckIs(w, 1, "oop", "loop");
    case 'm' => CheckIs(w, 1, "atch", "match");
    case 'N' => CheckIs(w, 1, "one", "None");
    case 'o' => CheckIs(w, 1, "r", "or");
    case 'r' => CheckIs(w, 1, "eturn", "return");
    case 't' => CheckIs(w, 1, "rue", "true");
    case 'v' => CheckIs(w, 1, "ar", "var");
    case 'w' => CheckIs(w, 1, "hile", "while");
    case _ =>
  }

  lemma {:induction false} TwoLetters(w: string)
    requires w != ""
    ensures |w| > 1 && w[0] == 'c' && w[1] == 'l' ==>
              CheckKeyword(w, 2, "ass", "class") == if w == "class" then Fixed(w) else Identifier
    ensures |w| > 1 && w[0] == 'c' && w[1] == 'o' ==>
              CheckKeyword(w, 2, "ntinue", "continue") == if w == "continue" then Fixed(w) else Identifier
    ensures |w| > 1 && w[0] == 'e' && w[1] == 'l' ==>
              CheckKeyword(w, 2, "se", "else") == if w == "else" then Fixed(w) else Identifier
    ensures |w| > 1 && w[0] == 'e' && w[1] == 'n' ==>
              CheckKeyword(w, 2, "um", "enum") == if w == "enum" then Fixed(w) else Identifier
    ensures |w| > 1 && w[0] == 'f' && w[1] == 'a' ==>
              CheckKeyword(w, 2, "lse", "false") == if w == "false" then Fixed(w) else Identifier
    ensures |w| > 1 && w[0] == 'f' && w[1] == 'o' ==>
              CheckKeyword(w, 2, "r", "for") == if w == "for" then Fixed(w) else Identifier
    ensures |w| > 1 && w[0] == 's' && w[1] == 'e' ==>
              CheckKeyword(w, 2, "lf", "self") == if w == "self" then Fixed(w) else Identifier
    ensures |w| > 1 && w[0] == 's' && w[1] == 'u' ==>
              CheckKeyword(w, 2, "per", "super") == if w == "super" then Fixed(w) else Identifier
    ensures |w| > 1 && w[0] == 's' && w[1] == 't' ==>
              CheckKeyword(w, 2, "ruct", "struct") == if w == "struct" then Fixed(w) else Identifier
  {
    hide CheckKeyword;
    if |w| > 1 {
      assert w[..2] == [w[0], w[1]];
      if w[0] == 'c' && w[1] == 'l' { CheckIs(w, 2, "ass", "class"); }
      if w[0] == 'c' && w[1] == 'o' { CheckIs(w, 2, "ntinue", "continue"); }
      if w[0] == 'e' && w[1] == 'l' { CheckIs(w, 2, "se", "else"); }
      if w[0] == 'e' && w[1] == 'n' { CheckIs(w, 2, "um", "enum"); }
      if w[0] == 'f' && w[1] == 'a' { CheckIs(w, 2, "lse", "false"); }
      if w[0] == 'f' && w[1] == 'o' { CheckIs(w, 2, "r", "for"); }
      if w[0] == 's' && w[1] == 'e' { CheckIs(w, 2, "lf", "self"); }
      if w[0] == 's' && w[1] == 'u' { CheckIs(w, 2, "per", "super"); }
      if w[0] == 's' && w[1] == 't' { CheckIs(w, 2, "ruct", "struct"); }
    }
  }

  /** A word taken for a keyword is spelled like it, unless it is a longer word that starts with fn. */
  lemma {:induction false} KeywordSpelling(w: string)
    requires WordKind(w).Fixed?
    ensures WordKind(w).text == w <==> !(|w| > 2 && w[..2] == "fn")
  {
    if |w| == 2 { assert w[..2] == w; }
  }

  class Scanner {
    const source: string
    var start: nat
    var current: nat
    var line: nat

    ghost predicate Valid()
      reads this
    {
      start <= current <= |source| && line == 1 + Newlines(source, current)
    }

    constructor (text: string)
      requires '\0' !in text
      ensures Valid() && source == text && current == 0
    {
      source, start, current, line := text, 0, 0, 1;
    }

    predicate AtEnd()
      requires current <= |source|
      reads this
    {
      current == |source|
    }

    /** The next character, or the terminator at the end of the source. */
    function Peek(): (c: char)
      requires current <= |source|
      reads this
      ensures !AtEnd() ==> c == source[current]
    {
      if AtEnd() then '\0' else source[current]
    }

    function PeekNext(): char
      requires current <= |source|
      reads this
    {
      if current + 1 < |source| then source[current + 1] else '\0'
    }

    /** Over one character; a new line is counted by the caller. */
    method Advance() returns (c: char)
      requires current <= |source|
      modifies `current
      ensures current == if old(current) == |source| then old(current) else old(current) + 1
      ensures c == if old(current) == |source| then '\0' else source[old(current)]
    {
      if AtEnd() { return '\0'; }
      current := current + 1;
      c := source[current - 1];
    }

    method Match(expected: char) returns (matched: bool)
      requires current <= |source|
      modifies `current
      ensures matched == (old(current) < |source| && source[old(current)] == expected)
      ensures current == if matched then old(current) + 1 else old(current)
    {
      if AtEnd() { return false; }
      if source[current] != expected { return false; }
      current := current + 1;
      matched := true;
    }

    /** White space and comments are skipped; false if a comment does not end. */
    method SkipWhitespace() returns (ok: bool)
      requires Valid() && '\0' !in source
      modifies `current, `line
      ensures start == old(start) && old(current) <= current <= |source|
      ensures ok ==> Valid() && Blank(source, old(current), current) && !Skips(source, current)
      ensures !ok ==> exists c: nat :: Blank(source, old(current), c) && OpenComment(source, c)
    {
      hide Newlines;
      ghost var from := current;
      while true
        invariant Valid() && from <= current && Blank(source, from, current)
        decreases |source| - current
      {
        ghost var before := current;
        var c := Peek();
        if c == ' ' || c == '\r' || c == '\t' {
          Over(source, current, current + 1);
          var _ := Advance();
          BlankThen(source, from, before, current);
        } else if c == '\n' {
          line := line + 1;
          OneMore(source, current);
          var _ := Advance();
          BlankThen(source, from, before, current);
        } else if c == '/' && PeekNext() == '/' {
          SkipLine();
          BlankThen(source, from, before, current);
        } else if c == '/' && PeekNext() == '*' {
          ok := SkipComment();
          if !ok { return; }
          BlankThen(source, from, before, current);
        } else {
          return true;
        }
      }
    }

    method SkipLine()
      requires Valid() && Pair(source, current, '/', '/') && '\0' !in source
      modifies `current
      ensures Valid() && current == LineEnd(source, old(current)) && current > old(current)
              && Blank(source, old(current), current)
    {
      ghost var from := current;
      while Peek() != '\n' && !AtEnd()
        invariant from <= current <= |source| && LineEnd(source, current) == LineEnd(source, from)
        decreases |source| - current
      {
        var _ := Advance();
      }
      Over(source, from, current);
    }

    method SkipComment() returns (ok: bool)
      requires Valid() && Pair(source, current, '/', '*') && '\0' !in source
      modifies `current, `line
      ensures old(current) <= current <= |source|
      ensures ok == CommentEnd(source, old(current) + 2).Some?
      ensures ok ==>
                Valid() && current == CommentEnd(source, old(current) + 2).value && Blank(source, old(current), current)
    {
      hide Newlines, Blank;
      ghost var from := current;
      CommentBlank(source, from);
      Over(source, current, current + 2);
      var _ := Advance();
      var _ := Advance();
      ok := false;
      while !AtEnd()
        invariant from + 2 <= current <= |source| && line == 1 + Newlines(source, current)
        invariant CommentEnd(source, current) == CommentEnd(source, from + 2)
        decreases |source| - current
      {
        OneMore(source, current);
        if Peek() == '\n' { line := line + 1; }
        if Peek() == '*' && PeekNext() == '/' {
          Over(source, current, current + 2);
          var _ := Advance();
          var _ := Advance();
          return true;
        }
        var _ := Advance();
      }
    }

    method MakeToken(kind: Kind) returns (t: Token)
      requires start <= current
      ensures t == Token(kind, start, current - start, line)
    {
      t := Token(kind, start, current - start, line);
    }

    method ScanIdentifier() returns (t: Token)
      requires Valid() && '\0' !in source && current == start + 1 && IsAlpha(source[start])
      modifies `current
      ensures Valid() && current == WordEnd(source, start)
      ensures t == Token(WordKind(source[start..current]), start, current - start, line)
    {
      assert WordKind("_") == Fixed("_");
      hide Newlines, WordKind, Trie;
      while IsWord(Peek())
        invariant start < current <= |source| && WordEnd(source, current) == WordEnd(source, start)
        invariant forall i :: start <= i < current ==> IsWord(source[i])
        decreases |source| - current
      {
        var _ := Advance();
      }
      Over(source, start + 1, current);
      var w := source[start..current];
      if w == "_" {
        t := MakeToken(Fixed("_"));
      } else {
        TrieIsTable(w);
        t := MakeToken(Trie(w));
      }
    }

    method SkipDigits()
      requires Valid() && '\0' !in source
      modifies `current
      ensures Valid() && current == DigitsEnd(source, old(current))
    {
      ghost var from := current;
      while IsDigit(Peek())
        invariant from <= current <= |source| && DigitsEnd(source, current) == DigitsEnd(source, from)
        decreases |source| - current
      {
        var _ := Advance();
      }
      Over(source, from, current);
    }

    /** A point without a digit after it ends the program. */
    method ScanNumber() returns (t: Option<Token>)
      requires Valid() && '\0' !in source && current == start + 1 && IsDigit(source[start]) && source[start] != '\n'
      modifies `current
      ensures var m := DigitsEnd(source, start);
              t.None? == (m < |source| && source[m] == '.' && (m + 1 == |source| || !IsDigit(source[m + 1])))
      ensures t.Some? ==> Valid() && current > start && t.value.Token?
                          && t.value == Token(t.value.kind, start, current - start, line)
                              && Lexeme(source, start, current, t.value.kind)
    {
      hide Newlines, WordKind, LongestSymbol, NumberKind;
      SkipDigits();
      if Peek() == '.' {
        if !IsDigit(PeekNext()) { return None; }
        Over(source, current, current + 1);
        var _ := Advance();
        SkipDigits();
        var f := MakeToken(Float64);
        return Some(f);
      }
      var n := MakeToken(NumberKind(source[start..current]));
      t := Some(n);
    }

    /** A string may go over several lines. */
    method ScanString() returns (t: Token)
      requires Valid() && '\0' !in source && current == start + 1 && source[start] == '"'
      modifies `current, `line
      ensures Valid()
      ensures t == if QuoteAt(source, start + 1) < |source| then Token(Str, start, current - start, line)
                   else Error("Unterminated string.", line)
      ensures current == if t.Token? then QuoteAt(source, start + 1) + 1 else |source|
    {
      hide Newlines;
      while Peek() != '"' && !AtEnd()
        invariant start < current <= |source| && line == 1 + Newlines(source, current)
        invariant QuoteAt(source, current) == QuoteAt(source, start + 1)
        decreases |source| - current
      {
        OneMore(source, current);
        if Peek() == '\n' { line := line + 1; }
        var _ := Advance();
      }
      if AtEnd() { return Error("Unterminated string.", line); }
      Over(source, current, current + 1);
      var _ := Advance();
      t := MakeToken(Str);
    }

    /** Operators and punctuation: the characters after the first are taken as long as they make a longer symbol. */
    method ScanSymbol(c: char) returns (t: Token)
      requires Valid() && '\0' !in source && current == start + 1 && c == source[start] && c != '\n'
      modifies `current
      ensures Valid() && start < current
      ensures t == if One(c) then Token(Fixed(source[start..current]), start, current - start, line)
                   else Error("Unexpected character.", line)
      ensures if One(c) then LongestSymbol(source, start, current) else current == old(current)
    {
      hide Newlines, IsSymbol, LongestSymbol, One, Two, Three;
      if !One(c) { return Error("Unexpected character.", line); }
      ExtendSymbol(c);
      SymbolAt(source, start);
      Over(source, start + 1, current);
      t := MakeToken(Fixed(source[start..current]));
    }

    method ExtendSymbol(c: char)
      requires start < |source| && current == start + 1 && c == source[start] && One(c)
      modifies `current
      ensures start < current <= |source| && current <= start + 3
      ensures current >= start + 2 <==> start + 1 < |source| && Two(c, source[start + 1])
      ensures current == start + 3 <==> start + 2 < |source| && Three(c, source[start + 1], source[start + 2])
      ensures forall i :: start < i < current ==> source[i] != '\n'
    {
      var m: bool;
      if c == ':' {
        m := Match(':');
      } else if c in "%+/*|&^~!" {
        m := Match('=');
      } else if c == '-' || c == '=' {
        m := Match('=');
        if !m { m := Match('>'); }
      } else if c == '<' || c == '>' {
        m := Match('=');
        if !m {
          m := Match(c);
          if m { m := Match('='); }
        }
      }
    }

    /** The next token; none if the program ends at an unfinished comment or number. */
    method ScanToken() returns (t: Option<Token>)
      requires Valid() && '\0' !in source
      modifies this
      ensures t.None? <==> Stuck(source, old(current))
      ensures t.Some? ==> Valid() && Reads(source, old(current), t.value, current)
      ensures t.Some? ==> old(current) <= current && (old(current) < |source| ==> old(current) < current)
    {
      hide Newlines, Blank, Lexeme, WordKind, LongestSymbol, Refused, OpenComment, BadNumber, Stuck, Reads;
      ghost var place := current;
      var ok := SkipWhitespace();
      if !ok { CommentStuck(source, place); return None; }
      start := current;
      if AtEnd() {
        EofReads(source, place, line);
        return Some(Eof(line));
      }
      FirstChar(source, start);
      Over(source, start, start + 1);
      var c := Advance();
      t := ScanLexeme(c);
      if t.None? { NumberStuck(source, place, start); } else { ReadsAt(source, place, start, t.value, current); }
    }

    /** The lexeme whose first character has just been read. */
    method ScanLexeme(c: char) returns (t: Option<Token>)
      requires Valid() && '\0' !in source && start < |source| && current == start + 1 && c == source[start]
      requires !Skips(source, start) && c != '\n'
      modifies `current, `line
      ensures t.None? <==> BadNumber(source, start)
      ensures t.Some? ==> Valid() && start < current && !t.value.Eof? && t.value.line == line
      ensures t.Some? && t.value.Token? ==>
                t.value == Token(t.value.kind, start, current - start, line)
                    && Lexeme(source, start, current, t.value.kind)
      ensures t.Some? && t.value.Error? ==> Refused(source, start, current, t.value.message)
    {
      hide Newlines, Lexeme, WordKind, LongestSymbol, One, Skips;
      if IsAlpha(c) {
        var w := ScanIdentifier();
        WordLexeme(source, start);
        return Some(w);
      }
      if IsDigit(c) {
        t := ScanNumber();
        return;
      }
      if c == '"' {
        var q := ScanString();
        StringLexeme(source, start);
        return Some(q);
      }
      var y := ScanSymbol(c);
      SymbolLexeme(source, start, current);
      t := Some(y);
    }

    /** The whole source as tokens, an end token last, each read where the one before it ended. The scan fails exactly
        when the source is bad; when it does not and no token is an error, the tokens cover the source. */
    method ScanTokens() returns (r: Option<seq<Token>>, ghost ends: seq<nat>)
      requires Valid() && current == 0 && '\0' !in source
      modifies this
      ensures r.None? <==> Bad(source)
      ensures r.Some? ==>
                ReadsAll(source, r.value, ends) && r.value != []
                    && r.value[|r.value| - 1] == Eof(1 + Newlines(source, |source|))
      ensures r.Some? && NoErrors(r.value) ==> Covers(source, r.value)
    {
      hide Newlines, Follows, Reads, Stuck, Bad;
      var tokens := [];
      ends := [];
      while !AtEnd()
        invariant Valid() && ReadsAll(source, tokens, ends) && current == Last(ends)
        decreases |source| - current
      {
        var t := ScanToken();
        if t.None? { IsBad(source, tokens, ends); return None, ends; }
        MoreReads(source, tokens, ends, t.value, current);
        tokens, ends := tokens + [t.value], ends + [current];
      }
      EndReads(source, line);
      MoreReads(source, tokens, ends, Eof(line), current);
      tokens, ends := tokens + [Eof(line)], ends + [current];
      NotBad(source, tokens, ends);
      ReadsCover(source, tokens, ends);
      r := Some(tokens);
    }
  }

  function Last(ends: seq<nat>): nat {
    if ends == [] then 0 else ends[|ends| - 1]
  }

  /** Each token is read where the one before it ended. */
  ghost predicate ReadsAll(s: string, tokens: seq<Token>, ends: seq<nat>) {
    |tokens| == |ends| && forall i :: 0 <= i < |tokens| ==> Reads(s, Last(ends[..i]), tokens[i], ends[i])
  }

  /** Reading token after token leads to a place where the scanner gives up. */
  ghost predicate Bad(s: string) {
    exists tokens, ends :: ReadsAll(s, tokens, ends) && Stuck(s, Last(ends))
  }

  lemma {:induction false} IsBad(s: string, tokens: seq<Token>, ends: seq<nat>)
    requires ReadsAll(s, tokens, ends) && Stuck(s, Last(ends))
    ensures Bad(s)
  {
  }

  lemma {:induction false} MoreReads(s: string, tokens: seq<Token>, ends: seq<nat>, t: Token, next: nat)
    requires ReadsAll(s, tokens, ends) && Reads(s, Last(ends), t, next)
    ensures ReadsAll(s, tokens + [t], ends + [next]) && Last(ends + [next]) == next
  {
    hide Reads;
    var all := ends + [next];
    assert forall i :: 0 <= i <= |ends| ==> all[..i] == ends[..i];
    assert ends[..|ends|] == ends;
  }

  /** Two readings of the same source agree as far as both go. */
  lemma {:induction false} SameReads(s: string, t: seq<Token>, a: seq<nat>, u: seq<Token>, b: seq<nat>, i: nat)
    requires ReadsAll(s, t, a) && ReadsAll(s, u, b) && i <= |a| && i <= |b|
    ensures a[..i] == b[..i] && t[..i] == u[..i]
    decreases i
  {
    hide Reads;
    if i > 0 {
      SameReads(s, t, a, u, b, i - 1);
      ReadsIsUnique(s, Last(a[..i - 1]), t[i - 1], a[i - 1], u[i - 1], b[i - 1]);
      assert a[..i] == a[..i - 1] + [a[i - 1]] && b[..i] == b[..i - 1] + [b[i - 1]];
      assert t[..i] == t[..i - 1] + [t[i - 1]] && u[..i] == u[..i - 1] + [u[i - 1]];
    }
  }

  /** A source that has been read to its end is not bad. */
  lemma {:induction false} NotBad(s: string, tokens: seq<Token>, ends: seq<nat>)
    requires ReadsAll(s, tokens, ends) && Last(ends) == |s|
    ensures !Bad(s)
  {
    hide Reads, Stuck;
    if Bad(s) {
      var u, b :| ReadsAll(s, u, b) && Stuck(s, Last(b));
      if |b| < |ends| {
        SameReads(s, tokens, ends, u, b, |b|);
        assert b[..|b|] == b;
        StuckIsFinal(s, Last(b), tokens[|b|], ends[|b|]);
      } else {
        SameReads(s, tokens, ends, u, b, |ends|);
        assert ends[..|ends|] == ends;
        AtEndStays(s, u, b, |ends|);
        NoneStuckAtEnd(s);
      }
    }
  }

  /** From the end of the source there is only the end to read. */
  lemma {:induction false} AtEndStays(s: string, u: seq<Token>, b: seq<nat>, i: nat)
    requires ReadsAll(s, u, b) && i <= |b| && Last(b[..i]) == |s|
    ensures Last(b) == |s|
    decreases |b| - i
  {
    hide Reads;
    if i < |b| {
      ReadsForward(s, Last(b[..i]), u[i], b[i]);
      assert b[..i + 1] == b[..i] + [b[i]];
      AtEndStays(s, u, b, i + 1);
    } else {
      assert b[..i] == b;
    }
  }

  lemma {:induction false} ReadsForward(s: string, place: nat, t: Token, next: nat)
    requires Reads(s, place, t, next)
    ensures place <= next <= |s|
  {
    hide Lexeme;
    if t.Error? {
      var p: nat :| Blank(s, place, p) && Refused(s, p, next, t.message);
      BlankOrder(s, place, p);
    } else {
      InOrder(s, place, t);
    }
  }

  lemma {:induction false} NoneStuckAtEnd(s: string)
    ensures !Stuck(s, |s|)
  {
  }

  lemma {:induction false} CommentStuck(s: string, place: nat)
    requires exists c: nat :: Blank(s, place, c) && OpenComment(s, c)
    ensures Stuck(s, place)
  {
  }

  lemma {:induction false} NumberStuck(s: string, place: nat, p: nat)
    requires Blank(s, place, p) && !Skips(s, p) && BadNumber(s, p)
    ensures Stuck(s, place)
  {
  }

  /** What has been read at a place makes it a place where the scanner does not give up. */
  lemma {:induction false} ReadsAt(s: string, place: nat, p: nat, t: Token, next: nat)
    requires Blank(s, place, p) && !t.Eof? && p < next <= |s| && t.line == 1 + Newlines(s, next)
    requires t.Token? ==> t == Token(t.kind, p, next - p, t.line) && Lexeme(s, p, next, t.kind)
    requires t.Error? ==> Refused(s, p, next, t.message)
    ensures Reads(s, place, t, next) && !Stuck(s, place)
  {
    hide Blank, Lexeme, Refused;
    StuckOrNot(s, place, t, next);
  }

  lemma {:induction false} StuckOrNot(s: string, place: nat, t: Token, next: nat)
    ensures Reads(s, place, t, next) ==> !Stuck(s, place)
  {
    if Stuck(s, place) { StuckIsFinal(s, place, t, next); }
  }

  lemma {:induction false} EofReads(s: string, place: nat, line: nat)
    requires Blank(s, place, |s|) && line == 1 + Newlines(s, |s|)
    ensures Reads(s, place, Eof(line), |s|) && !Stuck(s, place)
  {
    hide Blank;
    StuckOrNot(s, place, Eof(line), |s|);
  }

  lemma {:induction false} EndReads(s: string, line: nat)
    requires line == 1 + Newlines(s, |s|)
    ensures Reads(s, |s|, Eof(line), |s|)
  {
  }

  predicate NoErrors(tokens: seq<Token>) {
    forall i :: 0 <= i < |tokens| ==> !tokens[i].Error?
  }

  /** Without errors, the tokens that are read cover the source. */
  lemma {:induction false} ReadsCover(s: string, tokens: seq<Token>, ends: seq<nat>)
    requires ReadsAll(s, tokens, ends)
    ensures NoErrors(tokens) ==> Covers(s, tokens)
  {
    hide Follows;
    if NoErrors(tokens) {
      forall i | 0 <= i < |tokens| ensures Follows(s, Before(s, tokens, i), tokens[i]) {
        assert Reads(s, Last(ends[..i]), tokens[i], ends[i]);
        if i > 0 {
          assert Reads(s, Last(ends[..i - 1]), tokens[i - 1], ends[i - 1]);
          assert Last(ends[..i]) == ends[i - 1];
        }
      }
    }
  }

  /** A symbol's length decides which slices from its start are symbols. */
  lemma {:induction false} SymbolAt(s: string, i: nat)
    requires i < |s| && One(s[i])
    ensures var two, three := i + 1 < |s| && Two(s[i], s[i + 1]), i + 2 < |s| && Three(s[i], s[i + 1], s[i + 2]);
            var n := if three then 3 else if two then 2 else 1;
            LongestSymbol(s, i, i + n) && (three ==> two)
  {
    hide One, Two;
    var two, three := i + 1 < |s| && Two(s[i], s[i + 1]), i + 2 < |s| && Three(s[i], s[i + 1], s[i + 2]);
    if three { ThreeIsTwo(s[i], s[i + 1], s[i + 2]); }
  }

  lemma {:induction false} ThreeIsTwo(a: char, b: char, c: char)
    requires Three(a, b, c)
    ensures Two(a, b)
  {
  }

  /** Where nothing is skipped, the first character is no white space. */
  lemma {:induction false} FirstChar(s: string, i: nat)
    requires !Skips(s, i) && i < |s|
    ensures s[i] != '\n'
  {
  }

  lemma {:induction false} WordLexeme(s: string, i: nat)
    requires i < |s| && !Skips(s, i) && IsAlpha(s[i])
    ensures Lexeme(s, i, WordEnd(s, i), WordKind(s[i..WordEnd(s, i)]))
  {
  }

  lemma {:induction false} StringLexeme(s: string, i: nat)
    requires i < |s| && s[i] == '"'
    ensures QuoteAt(s, i + 1) < |s| ==> Lexeme(s, i, QuoteAt(s, i + 1) + 1, Str)
  {
  }

  lemma {:induction false} SymbolLexeme(s: string, i: nat, e: nat)
    requires i < e <= |s| && !Skips(s, i) && !IsAlpha(s[i]) && !IsDigit(s[i]) && s[i] != '"'
    ensures LongestSymbol(s, i, e) ==> Lexeme(s, i, e, Fixed(s[i..e]))
  {
  }

  /** Characters without a new line among them leave the line as it is. */
  lemma {:induction false} Over(s: string, a: nat, b: nat)
    requires a <= b <= |s| && forall i :: a <= i < b ==> s[i] != '\n'
    ensures Newlines(s, b) == Newlines(s, a)
    decreases b
  {
    if a < b { Over(s, a, b - 1); }
  }

  lemma {:induction false} OneMore(s: string, i: nat)
    requires i < |s|
    ensures Newlines(s, i + 1) == Newlines(s, i) + (if s[i] == '\n' then 1 else 0)
  {
  }

  lemma {:induction false} CommentBlank(s: string, i: nat)
    requires Pair(s, i, '/', '*')
    ensures var e := CommentEnd(s, i + 2); e.Some? ==> Blank(s, i, e.value)
  {
  }
}
