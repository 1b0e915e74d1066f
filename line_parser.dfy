/** The directive-line tokenizer: `splitDirectives` cuts a line into tokens
    following a fixed token grammar, and `ParseLine` turns the tokens into a
    command and an ordered list of arguments. */
module LineParser {
  import opened Wrappers
  import opened Strings

  /** One argument of a directive line (Go's CmdArg{Key, Vals}). A bare `key`
      has no values; `key=v` has the single value `v`; `key=(a, b)` has the
      trimmed values `a` and `b`. */
  datatype CmdArg = CmdArg(key: string, vals: seq<string>)

  /** The error splitDirectives builds: the position and the part of the line
      that no token could be matched at. */
  datatype ParseError = ParseError(pos: string, rest: string) {
    function Message(): string {
      pos + ": cannot parse directive: " + rest
    }
  }

  // ---------------------------------------------------------------------
  // The token grammar: at the start of the line, any number of spaces, a
  // non-empty word, then either nothing, `=` and a run of value runes, or
  // `=(` and a run without `)` closed by `)`; then one space or the end.
  // ---------------------------------------------------------------------

  /** Runes of a command or key: ASCII letters and digits, `-`, `_`, `,`
      and `.`. */
  predicate IsWordChar(c: char) {
    || 'a' <= c <= 'z' || 'A' <= c <= 'Z' || '0' <= c <= '9'
    || c == '-' || c == '_' || c == ',' || c == '.'
  }

  /** Runes of an unparenthesized value: those of a word, and `@`, `=`, `+`
      and `/`. */
  predicate IsValueChar(c: char) {
    IsWordChar(c) || c == '@' || c == '=' || c == '+' || c == '/'
  }

  /** The four repeated character classes of the grammar. */
  datatype CharClass = Blank | Word | Value | NotClose

  predicate InClass(k: CharClass, c: char) {
    match k
    case Blank => c == ' '
    case Word => IsWordChar(c)
    case Value => IsValueChar(c)
    case NotClose => c != ')'
  }

  /** The end of the longest run of class `k` starting at `i`. */
  function Span(s: string, i: nat, k: CharClass): (j: nat)
    requires i <= |s|
    ensures i <= j <= |s|
    decreases |s| - i
  {
    if i == |s| || !InClass(k, s[i]) then i else Span(s, i + 1, k)
  }

  /** Every rune of the run is of the class, and the one after it is not. */
  lemma {:induction false} SpanFacts(s: string, i: nat, k: CharClass)
    requires i <= |s|
    ensures forall x :: i <= x < Span(s, i, k) ==> InClass(k, s[x])
    ensures Span(s, i, k) == |s| || !InClass(k, s[Span(s, i, k)])
    decreases |s| - i
  {
    if i < |s| && InClass(k, s[i]) {
      SpanFacts(s, i + 1, k);
    }
  }

  /** The length of the match of the token grammar at the start of `s`, or 0
      when there is none (no match is empty). Leading spaces, then a maximal
      word, then the first of the three alternatives after which a space or
      the end of the line follows. */
  function MatchToken(s: string): (n: nat)
    ensures n <= |s|
  {
    var a := Span(s, 0, Blank);
    var b := Span(s, a, Word);
    if b == a then 0
    else if b == |s| then b
    else if s[b] == ' ' then b + 1
    else if s[b] != '=' then 0
    else
      var v := Span(s, b + 1, Value);
      if v == |s| then v
      else if s[v] == ' ' then v + 1
      else if s[b + 1] != '(' then 0
      else
        var q := Span(s, b + 2, NotClose);
        if q == |s| then 0
        else if q + 1 == |s| then q + 1
        else if s[q + 1] == ' ' then q + 2
        else 0
  }

  /** The three alternatives for what follows the word, occupying s[b..c]:
      nothing, `=` and a value run, or `=(`...`)` with no `)` inside. */
  ghost predicate ValueShape(s: string, b: nat, c: nat)
    requires b <= c <= |s|
  {
    || c == b
    || (b < c && s[b] == '=' && forall x :: b < x < c ==> IsValueChar(s[x]))
    || (b + 3 <= c && s[b] == '=' && s[b + 1] == '(' && s[c - 1] == ')'
        && forall x :: b + 2 <= x < c - 1 ==> s[x] != ')')
  }

  /** s[..n] is a match of the token grammar split as spaces s[..a], word
      s[a..b], value part s[b..c], then one space or the end of `s` (`$`). */
  ghost predicate TokenShape(s: string, a: nat, b: nat, c: nat, n: nat) {
    && a < b <= c <= n <= |s|
    && (forall x :: 0 <= x < a ==> s[x] == ' ')
    && (forall x :: a <= x < b ==> IsWordChar(s[x]))
    && ValueShape(s, b, c)
    && (if n == c then c == |s| else n == c + 1 && s[c] == ' ')
  }

  /** The token grammar matches a prefix of length `n` of `s`. */
  ghost predicate TokenAt(s: string, n: nat) {
    exists a: nat, b: nat, c: nat :: TokenShape(s, a, b, c, n)
  }

  /** Span's result is the one index that ends a run of the class. */
  lemma SpanIs(s: string, i: nat, k: CharClass, j: nat)
    requires i <= j <= |s|
    requires forall x :: i <= x < j ==> InClass(k, s[x])
    requires j == |s| || !InClass(k, s[j])
    ensures Span(s, i, k) == j
  {
    SpanFacts(s, i, k);
  }

  /** The matcher finds exactly the regular expression's match: a prefix of
      length n > 0 matches the grammar iff MatchToken returns n. So the match
      is unique, and leftmost-first and longest agree. */
  lemma MatchTokenIsGrammar(s: string, n: nat)
    ensures TokenAt(s, n) <==> (n > 0 && MatchToken(s) == n)
  {
    if TokenAt(s, n) {
      var a: nat, b: nat, c: nat :| TokenShape(s, a, b, c, n);
      ShapeMatches(s, a, b, c, n);
    }
    if n > 0 && MatchToken(s) == n {
      var a, b, c := MatchShape(s);
      assert TokenShape(s, a, b, c, n);
    }
  }

  lemma ShapeMatches(s: string, a: nat, b: nat, c: nat, n: nat)
    requires TokenShape(s, a, b, c, n)
    ensures MatchToken(s) == n
  {
    SpanIs(s, 0, Blank, a);
    SpanIs(s, a, Word, b);
    if c == b {
    } else if b + 3 <= c && s[b + 1] == '(' {
      SpanIs(s, b + 1, Value, b + 1);
      SpanIs(s, b + 2, NotClose, c - 1);
    } else {
      SpanIs(s, b + 1, Value, c);
    }
  }

  /** The split of the match MatchToken found. */
  lemma MatchShape(s: string) returns (a: nat, b: nat, c: nat)
    requires MatchToken(s) > 0
    ensures TokenShape(s, a, b, c, MatchToken(s))
    ensures a == LeadingSpaces(s[..MatchToken(s)])
  {
    var n := MatchToken(s);
    a := Span(s, 0, Blank);
    b := Span(s, a, Word);
    WordRun(s);
    if b == |s| || s[b] == ' ' {
      c := b;
    } else {
      var v := Span(s, b + 1, Value);
      if v == |s| || s[v] == ' ' {
        c := v;
        ValueRun(s, b);
      } else {
        c := Span(s, b + 2, NotClose) + 1;
        ParenRun(s, b);
      }
    }
    assert n == c || (n == c + 1 && s[c] == ' ');
    LeadingSpacesIs(s[..n], a);
  }

  /** Leading spaces, then a maximal word run. */
  lemma WordRun(s: string)
    ensures var a := Span(s, 0, Blank);
      && (forall x :: 0 <= x < a ==> s[x] == ' ')
      && (forall x :: a <= x < Span(s, a, Word) ==> IsWordChar(s[x]))
  {
    SpanFacts(s, 0, Blank);
    SpanFacts(s, Span(s, 0, Blank), Word);
  }

  /** `=` and a maximal value run is the second alternative. */
  lemma ValueRun(s: string, b: nat)
    requires b < |s| && s[b] == '='
    ensures ValueShape(s, b, Span(s, b + 1, Value))
  {
    SpanFacts(s, b + 1, Value);
  }

  /** `=(`, a maximal run without `)`, then `)`, is the third alternative. */
  lemma ParenRun(s: string, b: nat)
    requires b + 1 < |s| && s[b] == '=' && s[b + 1] == '('
    requires Span(s, b + 2, NotClose) < |s|
    ensures ValueShape(s, b, Span(s, b + 2, NotClose) + 1)
  {
    SpanFacts(s, b + 2, NotClose);
  }

  lemma LeadingSpacesIs(s: string, a: nat)
    requires a < |s| && !IsSpace(s[a])
    requires forall x :: 0 <= x < a ==> s[x] == ' '
    ensures LeadingSpaces(s) == a
  {
    LeadingSpacesFacts(s);
  }

  /** The token kept for a matched chunk is the chunk without its leading
      spaces and its one trailing space: the word and value part s[a..c]. */
  lemma TrimmedChunk(s: string, a: nat, b: nat, c: nat, n: nat)
    requires TokenShape(s, a, b, c, n)
    ensures TrimSpace(s[..n]) == s[a..c]
  {
    var chunk := s[..n];
    LeadingSpacesIs(chunk, a);
    TrimSpaceFacts(chunk);
    assert !IsSpace(s[c - 1]);
  }

  // ---------------------------------------------------------------------
  // splitDirectives
  // ---------------------------------------------------------------------

  /** The tokens splitDirectives returns, or the remainder of the line at
      which no token matched. */
  function Tokenize(line: string): Result<seq<string>, string>
    decreases |line|
  {
    if line == "" then Success([])
    else
      var n := MatchToken(line);
      if n == 0 then Failure(line)
      else
        match Tokenize(line[n..])
        case Success(rest) => Success([TrimSpace(line[..n])] + rest)
        case Failure(e) => Failure(e)
  }

  /** When splitDirectives fails, the remainder it reports is a non-empty
      suffix of the line at whose start the grammar matches nothing. */
  lemma {:induction false} TokenizeFailure(line: string)
    requires Tokenize(line).Failure?
    ensures var rest := Tokenize(line).error;
      && 0 < |rest| <= |line|
      && rest == line[|line| - |rest|..]
      && forall n :: !TokenAt(rest, n)
    decreases |line|
  {
    var n := MatchToken(line);
    if n == 0 {
      forall m ensures !TokenAt(line, m) {
        MatchTokenIsGrammar(line, m);
      }
    } else {
      TokenizeFailure(line[n..]);
    }
  }

  /** `cs` cuts `s` into consecutive grammar matches, each taken at the start
      of what the previous ones left. */
  ghost predicate IsChunking(s: string, cs: seq<string>)
    decreases |cs|
  {
    if cs == [] then s == ""
    else
      && |cs[0]| <= |s|
      && s[..|cs[0]|] == cs[0]
      && TokenAt(s, |cs[0]|)
      && IsChunking(s[|cs[0]|..], cs[1..])
  }

  function Concat(cs: seq<string>): string
    decreases |cs|
  {
    if cs == [] then "" else cs[0] + Concat(cs[1..])
  }

  /** The chunks of a chunking are non-empty and concatenate back to the
      line. */
  lemma {:induction false} ChunkingConcat(s: string, cs: seq<string>)
    requires IsChunking(s, cs)
    ensures Concat(cs) == s
    ensures forall i :: 0 <= i < |cs| ==> cs[i] != ""
    decreases |cs|
  {
    if cs != [] {
      ChunkingConcat(s[|cs[0]|..], cs[1..]);
      MatchTokenIsGrammar(s, |cs[0]|);
      assert s == s[..|cs[0]|] + s[|cs[0]|..];
      forall i | 0 <= i < |cs| ensures cs[i] != "" {
        if i > 0 {
          assert cs[i] == cs[1..][i - 1];
        }
      }
    }
  }

  /** A successful tokenization comes from a chunking of the line, each token
      being its chunk trimmed. */
  lemma {:induction false} TokenizeSound(line: string) returns (cs: seq<string>)
    requires Tokenize(line).Success?
    ensures IsChunking(line, cs)
    ensures Tokenize(line).value == TrimAll(cs)
    decreases |line|
  {
    if line == "" {
      cs := [];
    } else {
      var n := MatchToken(line);
      MatchTokenIsGrammar(line, n);
      var rest := TokenizeSound(line[n..]);
      cs := [line[..n]] + rest;
      assert cs[1..] == rest;
      TrimAllCons(cs);
    }
  }

  /** Every chunking of the line is the one Tokenize follows. */
  lemma {:induction false} TokenizeComplete(line: string, cs: seq<string>)
    requires IsChunking(line, cs)
    ensures Tokenize(line) == Success(TrimAll(cs))
    decreases |cs|
  {
    if cs != [] {
      var n := |cs[0]|;
      MatchTokenIsGrammar(line, n);
      TokenizeComplete(line[n..], cs[1..]);
      TrimAllCons(cs);
    }
  }

  lemma TrimAllCons(cs: seq<string>)
    requires cs != []
    ensures TrimAll(cs) == [TrimSpace(cs[0])] + TrimAll(cs[1..])
  {
    var l, r := TrimAll(cs), [TrimSpace(cs[0])] + TrimAll(cs[1..]);
    assert |l| == |r|;
    forall i | 0 <= i < |l| ensures l[i] == r[i] {
      if i > 0 {
        assert r[i] == TrimAll(cs[1..])[i - 1];
      }
    }
  }

  /** splitDirectives fails exactly when the line cannot be cut into grammar
      matches. */
  lemma TokenizeFailsIffNoChunking(line: string)
    ensures Tokenize(line).Success? <==> exists cs :: IsChunking(line, cs)
  {
    if Tokenize(line).Success? {
      ChunkingOfTokens(line);
    } else if exists cs :: IsChunking(line, cs) {
      TokensOfChunking(line);
    }
  }

  lemma ChunkingOfTokens(line: string)
    requires Tokenize(line).Success?
    ensures exists cs :: IsChunking(line, cs)
  {
    var cs := TokenizeSound(line);
  }

  lemma TokensOfChunking(line: string)
    requires exists cs :: IsChunking(line, cs)
    ensures Tokenize(line).Success?
  {
    var cs :| IsChunking(line, cs);
    TokenizeComplete(line, cs);
  }

  /** A token as splitDirectives keeps it: non-empty, starting with a word
      rune, with no white space at either end. */
  predicate TrimmedToken(t: string) {
    t != "" && IsWordChar(t[0]) && TrimSpace(t) == t
  }

  /** Every token is non-empty, starts with a word rune and has no white
      space at either end. */
  lemma {:induction false} TokensAreTrimmed(line: string)
    requires Tokenize(line).Success?
    ensures forall i :: 0 <= i < |Tokenize(line).value| ==> TrimmedToken(Tokenize(line).value[i])
    decreases |line|
  {
    if line != "" {
      var n := TokenizeCons(line);
      MatchedTokenTrimmed(line);
      TokensAreTrimmed(line[n..]);
      var toks, rest := Tokenize(line).value, Tokenize(line[n..]).value;
      forall i | 0 <= i < |toks|
        ensures TrimmedToken(toks[i])
      {
        if i > 0 {
          assert toks[i] == rest[i - 1];
        }
      }
    }
  }

  /** A non-empty line that splits starts with a match, and its tokens are
      that match, trimmed, and then the tokens of the rest. */
  lemma TokenizeCons(line: string) returns (n: nat)
    requires line != "" && Tokenize(line).Success?
    ensures n == MatchToken(line) > 0
    ensures Tokenize(line[n..]).Success?
    ensures Tokenize(line).value == [TrimSpace(line[..n])] + Tokenize(line[n..]).value
  {
    n := MatchToken(line);
  }

  lemma MatchedTokenTrimmed(s: string)
    requires MatchToken(s) > 0
    ensures TrimmedToken(TrimSpace(s[..MatchToken(s)]))
  {
    var a, b, c := MatchShape(s);
    TrimmedChunk(s, a, b, c, MatchToken(s));
    TrimSpaceOfTrimmed(s[a..c]);
  }

  function Prepend<E>(toks: seq<string>, r: Result<seq<string>, E>): Result<seq<string>, E> {
    match r
    case Success(t) => Success(toks + t)
    case Failure(e) => Failure(e)
  }

  /** splitDirectives: repeatedly takes the grammar's match off the front of
      the line and keeps it trimmed; fails with the remainder where nothing
      matches. */
  method SplitDirectives(pos: string, line: string) returns (res: Result<seq<string>, ParseError>)
    ensures res.Success? <==> Tokenize(line).Success?
    ensures res.Success? ==> res.value == Tokenize(line).value
    ensures res.Failure? ==> res.error == ParseError(pos, Tokenize(line).error)
  {
    var toks: seq<string> := [];
    var rest := line;
    if Tokenize(line).Success? {
      assert toks + Tokenize(line).value == Tokenize(line).value;
    }
    while rest != ""
      invariant Tokenize(line) == Prepend(toks, Tokenize(rest))
      decreases |rest|
    {
      var n := MatchToken(rest);
      if n == 0 {
        return Failure(ParseError(pos, rest));
      }
      var t := TrimSpace(rest[..n]);
      PrependStep(toks, rest);
      toks := toks + [t];
      rest := rest[n..];
    }
    return Success(toks);
  }

  // ---------------------------------------------------------------------
  // ParseLine
  // ---------------------------------------------------------------------

  /** One token moves from the rest of the line to the tokens found. */
  lemma PrependStep(toks: seq<string>, rest: string)
    requires rest != "" && MatchToken(rest) > 0
    ensures var n := MatchToken(rest);
      Prepend(toks, Tokenize(rest)) == Prepend(toks + [TrimSpace(rest[..n])], Tokenize(rest[n..]))
  {
    var n := MatchToken(rest);
    var t := TrimSpace(rest[..n]);
    match Tokenize(rest[n..]) {
      case Success(more) => assert toks + ([t] + more) == (toks + [t]) + more;
      case Failure(_) =>
    }
  }

  /** The argument one token after the command stands for. */
  function ParseArg(arg: string): CmdArg {
    var i := IndexOf(arg, '=');
    if i < 0 then CmdArg(arg, [])
    else
      var val := arg[i + 1..];
      if |val| > 2 && val[0] == '(' && val[|val| - 1] == ')'
      then CmdArg(arg[..i], TrimAll(Split(val[1..|val| - 1], ',')))
      else CmdArg(arg[..i], [val])
  }

  /** The command and arguments ParseLine returns for `line`. */
  function Directive(line: string): (string, seq<CmdArg>) {
    match Tokenize(line)
    case Failure(_) => ("", [])
    case Success(fields) =>
      if fields == [] then ("", [])
      else (fields[0], ParseArgs(fields[1..]))
  }

  /** One argument per token, in order. */
  function ParseArgs(toks: seq<string>): (r: seq<CmdArg>)
    ensures |r| == |toks|
    ensures forall i :: 0 <= i < |toks| ==> r[i] == ParseArg(toks[i])
  {
    if toks == [] then [] else [ParseArg(toks[0])] + ParseArgs(toks[1..])
  }

  /** The body of ParseLine's loop over the tokens after the command: split
      at the first `=`, and split a parenthesized value at its commas,
      trimming each piece in place. */
  method ParseArgument(arg: string) returns (r: CmdArg)
    ensures r == ParseArg(arg)
  {
    var key := arg;
    var vals: seq<string> := [];
    var p := IndexOf(key, '=');
    if p >= 0 {
      key := arg[..p];
      var val := arg[p + 1..];
      if |val| > 2 && val[0] == '(' && val[|val| - 1] == ')' {
        vals := Split(val[1..|val| - 1], ',');
        ghost var pieces := vals;
        var i := 0;
        while i < |vals|
          invariant 0 <= i <= |vals| == |pieces|
          invariant forall j :: 0 <= j < i ==> vals[j] == TrimSpace(pieces[j])
          invariant forall j :: i <= j < |vals| ==> vals[j] == pieces[j]
        {
          vals := vals[i := TrimSpace(vals[i])];
          i := i + 1;
        }
      } else {
        vals := [val];
      }
    }
    return CmdArg(key, vals);
  }

  /** ParseLine's loop over the tokens after the command: one argument per
      token, appended in order. */
  method ParseArguments(args: seq<string>) returns (cmdArgs: seq<CmdArg>)
    ensures cmdArgs == ParseArgs(args)
  {
    cmdArgs := [];
    var k := 0;
    while k < |args|
      invariant 0 <= k <= |args|
      invariant |cmdArgs| == k
      invariant forall i :: 0 <= i < k ==> cmdArgs[i] == ParseArg(args[i])
    {
      var arg := ParseArgument(args[k]);
      cmdArgs := cmdArgs + [arg];
      k := k + 1;
    }
  }

  /** ParseLine: the first token is the command and every later token one
      argument, in order and without de-duplication. A tokenizer error is
      swallowed: the result is then an empty command and no error. */
  method ParseLine(pos: string, line: string) returns (cmd: string, cmdArgs: seq<CmdArg>, err: Option<ParseError>)
    ensures err == None
    ensures (cmd, cmdArgs) == Directive(line)
  {
    var fields := SplitDirectives(pos, line);
    if fields.Failure? {
      return "", [], None;
    }
    if |fields.value| == 0 {
      return "", [], None;
    }
    cmd := fields.value[0];
    cmdArgs := ParseArguments(fields.value[1..]);
    return cmd, cmdArgs, None;
  }

  // ---------------------------------------------------------------------
  // Properties of ParseLine
  // ---------------------------------------------------------------------

  /** The command is empty exactly when the line splits into no token or
      fails to split (an empty line, a line of spaces, a malformed line), and
      an empty command comes with no arguments. */
  lemma EmptyCommand(line: string)
    ensures Directive(line).0 == "" <==> Tokenize(line).Failure? || Tokenize(line).value == []
    ensures Directive(line).0 == "" ==> Directive(line).1 == []
  {
    if Tokenize(line).Success? && Tokenize(line).value != [] {
      FirstTokenNonEmpty(line);
    }
  }

  lemma FirstTokenNonEmpty(line: string)
    requires Tokenize(line).Success? && Tokenize(line).value != []
    ensures Tokenize(line).value[0] != ""
  {
    TokensAreTrimmed(line);
    var t := Tokenize(line).value[0];
    assert t != "";
  }

  /** Otherwise the command is the first token and each later token gives one
      argument, in order and with repeated keys kept, so there is one
      argument fewer than tokens. */
  lemma CommandAndArgs(line: string)
    requires Tokenize(line).Success? && Tokenize(line).value != []
    ensures var toks := Tokenize(line).value;
      && Directive(line).0 == toks[0]
      && |Directive(line).1| == |toks| - 1
      && forall i :: 0 <= i < |toks| - 1 ==> Directive(line).1[i] == ParseArg(toks[i + 1])
  {
  }

  /** An empty line is no directive, and no error. */
  lemma EmptyLineIsNoDirective()
    ensures Directive("") == ("", [])
  {
  }

  /** A token without `=` is a bare key with no values. */
  lemma BareArg(arg: string)
    requires '=' !in arg
    ensures ParseArg(arg) == CmdArg(arg, [])
  {
  }

  /** With an `=`, the key is what precedes the first `=`, and the value
      (everything after it, which may hold more `=`) completes the token. A
      value that is neither `(...)` with something between the parentheses
      is kept verbatim as the only value, `key=` and `key=()` included. */
  lemma KeyValueArg(arg: string)
    requires '=' in arg
    ensures var r := ParseArg(arg);
      && '=' !in r.key
      && HasPrefix(arg, r.key + "=")
      && var val := arg[|r.key| + 1..];
         !(|val| > 2 && val[0] == '(' && val[|val| - 1] == ')') ==> r.vals == [val]
  {
    var i := IndexOf(arg, '=');
    assert (arg[..i] + "=") == arg[..i + 1];
  }

  /** A parenthesized value `key=(v1, ..., vn)` with something between the
      parentheses is split at every comma and each piece trimmed: there is
      one value per piece, and one more value than commas. */
  lemma ListArg(key: string, inner: string)
    requires '=' !in key && inner != ""
    ensures var r := ParseArg(key + "=(" + inner + ")");
      && r.key == key
      && r.vals == TrimAll(Split(inner, ','))
      && |r.vals| == Count(inner, ',') + 1
  {
    var arg, val := key + "=(" + inner + ")", "(" + inner + ")";
    assert ParseArg(arg) == CmdArg(key, TrimAll(Split(inner, ','))) by {
      assert arg == key + ['='] + val;
      IndexOfAfter(key, '=', val);
      assert arg[..|key|] == key && arg[|key| + 1..] == val;
      assert val[1..|val| - 1] == inner;
    }
    SplitCount(inner, ',');
  }

  // ---------------------------------------------------------------------
  // Round trip: a directive written out from its parts parses back
  // ---------------------------------------------------------------------

  /** A command or key: a non-empty run of word runes. */
  predicate IsWord(s: string) {
    |s| > 0 && forall i :: 0 <= i < |s| ==> IsWordChar(s[i])
  }

  /** A value that can be written unparenthesized: a run of value runes. */
  predicate IsValueWord(s: string) {
    forall i :: 0 <= i < |s| ==> IsValueChar(s[i])
  }

  /** A value that can be written inside `(...)`: no white space at either
      end, and neither a comma nor a closing parenthesis. */
  predicate IsListValue(s: string) {
    TrimSpace(s) == s && ',' !in s && ')' !in s
  }

  /** An argument that can be written as one token: a bare key, a key with
      one unparenthesized value, or a key with a non-empty list of values
      that is not the single empty value. */
  predicate WellFormedArg(a: CmdArg) {
    && IsWord(a.key)
    && (|| a.vals == []
        || (|a.vals| == 1 && IsValueWord(a.vals[0]))
        || (&& (forall i :: 0 <= i < |a.vals| ==> IsListValue(a.vals[i]))
            && (|a.vals| >= 2 || a.vals[0] != "")))
  }

  /** The token for an argument: `key`, `key=value` or `key=(v1,...,vn)`. */
  function ArgText(a: CmdArg): string {
    if a.vals == [] then a.key
    else if |a.vals| == 1 && IsValueWord(a.vals[0]) then a.key + "=" + a.vals[0]
    else a.key + "=(" + Join(a.vals, ',') + ")"
  }

  function ArgTexts(args: seq<CmdArg>): seq<string> {
    seq(|args|, i requires 0 <= i < |args| => ArgText(args[i]))
  }

  /** The directive line for a command and its arguments, one space apart. */
  function Serialize(cmd: string, args: seq<CmdArg>): string {
    Join([cmd] + ArgTexts(args), ' ')
  }

  /** Writing a well-formed directive out and parsing it back gives the
      command and the arguments, in order. */
  lemma SerializeRoundTrip(cmd: string, args: seq<CmdArg>)
    requires IsWord(cmd)
    requires forall i :: 0 <= i < |args| ==> WellFormedArg(args[i])
    ensures Directive(Serialize(cmd, args)) == (cmd, args)
  {
    var toks := [cmd] + ArgTexts(args);
    TokensOfDirective(cmd, args);
    TokenizeJoin(toks);
    assert toks[0] == cmd && toks[1..] == ArgTexts(args);
    ArgTextsParse(args);
  }

  lemma TokensOfDirective(cmd: string, args: seq<CmdArg>)
    requires IsWord(cmd)
    requires forall i :: 0 <= i < |args| ==> WellFormedArg(args[i])
    ensures forall i :: 0 <= i < |[cmd] + ArgTexts(args)| ==> IsToken(([cmd] + ArgTexts(args))[i])
  {
    var toks := [cmd] + ArgTexts(args);
    forall i | 0 <= i < |toks|
      ensures IsToken(toks[i])
    {
      if i == 0 {
        assert TokenShape(cmd, 0, |cmd|, |cmd|, |cmd|);
      } else {
        assert toks[i] == ArgText(args[i - 1]);
        ArgTextIsToken(args[i - 1]);
      }
    }
  }

  lemma ArgTextsParse(args: seq<CmdArg>)
    requires forall i :: 0 <= i < |args| ==> WellFormedArg(args[i])
    ensures ParseArgs(ArgTexts(args)) == args
  {
    var parsed := ParseArgs(ArgTexts(args));
    forall i | 0 <= i < |args|
      ensures parsed[i] == args[i]
    {
      ArgTextParses(args[i]);
    }
  }

  /** A token: the grammar matches all of it, with no leading spaces. */
  ghost predicate IsToken(t: string) {
    exists b: nat :: TokenShape(t, 0, b, |t|, |t|)
  }

  lemma ArgTextIsToken(a: CmdArg)
    requires WellFormedArg(a)
    ensures IsToken(ArgText(a))
  {
    var t, b := ArgText(a), |a.key|;
    assert t[..b] == a.key;
    if a.vals == [] {
      assert TokenShape(t, 0, b, |t|, |t|);
    } else if |a.vals| == 1 && IsValueWord(a.vals[0]) {
      assert t[b] == '=' && t[b + 1..] == a.vals[0];
      assert TokenShape(t, 0, b, |t|, |t|);
    } else {
      var inner := Join(a.vals, ',');
      JoinNonEmpty(a.vals);
      JoinAvoids(a.vals, ',', ')');
      assert t == a.key + "=(" + inner + ")";
      assert t[b + 2..|t| - 1] == inner;
      assert forall x :: b + 2 <= x < |t| - 1 ==> t[x] == inner[x - b - 2];
      assert TokenShape(t, 0, b, |t|, |t|);
    }
  }

  lemma ArgTextParses(a: CmdArg)
    requires WellFormedArg(a)
    ensures ParseArg(ArgText(a)) == a
  {
    WordHasNoEquals(a.key);
    if a.vals == [] {
      BareArg(a.key);
    } else if |a.vals| == 1 && IsValueWord(a.vals[0]) {
      ValueTextParses(a.key, a.vals[0]);
    } else {
      ListTextParses(a.key, a.vals);
    }
  }

  lemma WordHasNoEquals(s: string)
    requires IsWord(s)
    ensures '=' !in s
  {
    forall i | 0 <= i < |s|
      ensures s[i] != '='
    {
      assert IsWordChar(s[i]);
    }
  }

  /** `key=value` with an unparenthesized value. */
  lemma ValueTextParses(key: string, v: string)
    requires '=' !in key && IsValueWord(v)
    ensures ParseArg(key + "=" + v) == CmdArg(key, [v])
  {
    var t := key + "=" + v;
    assert t == key + ['='] + v;
    IndexOfAfter(key, '=', v);
    assert t[..|key|] == key && t[|key| + 1..] == v;
    if v != [] {
      assert IsValueChar(v[0]);
    }
  }

  /** `key=(v1,...,vn)` with trimmed values free of commas. */
  lemma ListTextParses(key: string, vals: seq<string>)
    requires '=' !in key
    requires forall i :: 0 <= i < |vals| ==> IsListValue(vals[i])
    requires |vals| >= 2 || (|vals| == 1 && vals[0] != "")
    ensures ParseArg(key + "=(" + Join(vals, ',') + ")") == CmdArg(key, vals)
  {
    var inner := Join(vals, ',');
    assert inner != "" by {
      JoinNonEmpty(vals);
    }
    assert Split(inner, ',') == vals by {
      SplitJoin(vals, ',');
    }
    assert TrimAll(vals) == vals;
    ListArg(key, inner);
  }

  lemma {:induction false} JoinNonEmpty(parts: seq<string>)
    requires |parts| >= 2 || (|parts| == 1 && parts[0] != "")
    ensures Join(parts, ',') != ""
  {
    if |parts| >= 2 {
      assert Join(parts, ',')[|parts[0]|] == ',';
    }
  }

  /** A rune that is neither the separator nor in any piece is not in the
      join. */
  lemma {:induction false} JoinAvoids(parts: seq<string>, sep: char, c: char)
    requires c != sep
    requires forall i :: 0 <= i < |parts| ==> c !in parts[i]
    ensures c !in Join(parts, sep)
    decreases |parts|
  {
    if |parts| >= 2 {
      JoinAvoids(parts[1..], sep, c);
    }
  }

  /** A line of tokens one space apart splits back into those tokens. */
  lemma {:induction false} TokenizeJoin(toks: seq<string>)
    requires |toks| >= 1
    requires forall i :: 0 <= i < |toks| ==> IsToken(toks[i])
    ensures Tokenize(Join(toks, ' ')) == Success(toks)
    decreases |toks|
  {
    var t := toks[0];
    assert IsToken(t);
    var b: nat :| TokenShape(t, 0, b, |t|, |t|);
    if |toks| == 1 {
      assert toks == [t] && Join(toks, ' ') == t;
      TokenizeLast(t, b);
    } else {
      var rest := Join(toks[1..], ' ');
      assert toks == [t] + toks[1..];
      JoinCons(t, toks[1..], ' ');
      forall i | 0 <= i < |toks| - 1 ensures IsToken(toks[1..][i]) {
        assert toks[1..][i] == toks[i + 1];
      }
      TokenizeJoin(toks[1..]);
      TokenizeFront(t, b, rest);
    }
  }

  /** A token alone on the line is the only token. */
  lemma TokenizeLast(t: string, b: nat)
    requires TokenShape(t, 0, b, |t|, |t|)
    ensures Tokenize(t) == Success([t])
  {
    ShapeMatches(t, 0, b, |t|, |t|);
    TrimmedChunk(t, 0, b, |t|, |t|);
    assert t[|t|..] == "" && t[..|t|] == t && t[0..|t|] == t;
    assert Tokenize("") == Success([]);
    assert [t] + [] == [t];
  }

  /** A token and a space in front of a line add that token in front of the
      line's tokens. */
  lemma TokenizeFront(t: string, b: nat, rest: string)
    requires TokenShape(t, 0, b, |t|, |t|)
    requires Tokenize(rest).Success?
    ensures Tokenize(t + [' '] + rest) == Success([t] + Tokenize(rest).value)
  {
    var line := t + [' '] + rest;
    TokenPrefix(t, b, line);
    ShapeMatches(line, 0, b, |t|, |t| + 1);
    TrimmedChunk(line, 0, b, |t|, |t| + 1);
    assert line[|t| + 1..] == rest && line[0..|t|] == t;
  }

  /** A token followed by a space keeps its shape, the space ending it. */
  lemma TokenPrefix(t: string, b: nat, line: string)
    requires TokenShape(t, 0, b, |t|, |t|)
    requires |t| < |line| && line[..|t|] == t && line[|t|] == ' '
    ensures TokenShape(line, 0, b, |t|, |t| + 1)
  {
    assert forall x :: 0 <= x < |t| ==> line[x] == t[x];
  }
}
