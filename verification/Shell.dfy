/** The parser of sh.c. A command line has no NUL inside; the buffer has one behind it.
    Tokens are spans of the line. A panic is the result Bad. */
module Shell {

  const MAXARGS: nat := 10
  const NUL: char := '\0'

  predicate White(c: char) {
    c == ' ' || c == '\t' || c == '\r' || c == '\n' || c == '\U{0B}'
  }

  predicate Symbol(c: char) {
    c == '<' || c == '|' || c == '>' || c == '&' || c == ';' || c == '(' || c == ')'
  }

  predicate WordChar(c: char) {
    !White(c) && !Symbol(c)
  }

  /** A line has no NUL inside. */
  ghost predicate NoNul(s: string) {
    forall k :: 0 <= k < |s| ==> s[k] != NUL
  }

  datatype Span = Span(lo: nat, hi: nat)

  /** O_RDONLY on fd 0, or O_WRONLY|O_CREATE on fd 1. */
  datatype Mode = ReadIn | WriteOut

  datatype Cmd =
    | Exec(argv: seq<Span>)
    | Redir(cmd: Cmd, file: Span, mode: Mode)
    | Pipe(left: Cmd, right: Cmd)
    | List(left: Cmd, right: Cmd)
    | Back(cmd: Cmd)

  // ---------------------------------------------------------------- tokens

  /** The first position from i on that is not white. */
  function Skip(s: string, i: nat): (j: nat)
    requires i <= |s|
    ensures i <= j <= |s| && (j < |s| ==> !White(s[j]))
    decreases |s| - i
  {
    if i < |s| && White(s[i]) then Skip(s, i + 1) else i
  }

  /** The end of the word that starts at i. */
  function WordEnd(s: string, i: nat): (j: nat)
    requires i <= |s|
    ensures i <= j <= |s| && (j < |s| ==> !WordChar(s[j]))
    decreases |s| - i
  {
    if i < |s| && WordChar(s[i]) then WordEnd(s, i + 1) else i
  }

  /** '\0' at the end, 'a' for a word, '+' for >>, and symbols as they are. */
  datatype Token = Token(kind: char, span: Span, next: nat)

  function GetToken(s: string, i: nat): (t: Token)
    requires i <= |s|
    ensures i <= t.next <= |s| && (t.kind != NUL ==> Skip(s, i) < t.next)
  {
    var q := Skip(s, i);
    if q == |s| then Token(NUL, Span(q, q), q)
    else if s[q] == '>' && q + 1 < |s| && s[q + 1] == '>' then Token('+', Span(q, q + 2), Skip(s, q + 2))
    else if Symbol(s[q]) then Token(s[q], Span(q, q + 1), Skip(s, q + 1))
    else if s[q] == NUL then Token(NUL, Span(q, q), q)
    else Token('a', Span(q, WordEnd(s, q)), Skip(s, WordEnd(s, q)))
  }

  /** The next character that is not white is one of toks. */
  predicate Peek(s: string, i: nat, toks: string)
    requires i <= |s|
  {
    Skip(s, i) < |s| && s[Skip(s, i)] != NUL && s[Skip(s, i)] in toks
  }

  /** The loops of gettoken. */
  method ScanToken(s: string, i: nat) returns (t: Token)
    requires i <= |s|
    ensures t == GetToken(s, i)
  {
    var p := i;
    while p < |s| && White(s[p])
      invariant i <= p <= |s| && Skip(s, p) == Skip(s, i)
    {
      p := p + 1;
    }
    var q := p;
    var kind := if p < |s| then s[p] else NUL;
    if kind == NUL {
    } else if kind == '>' {
      p := p + 1;
      if p < |s| && s[p] == '>' {
        kind := '+';
        p := p + 1;
      }
    } else if Symbol(kind) {
      p := p + 1;
    } else {
      kind := 'a';
      while p < |s| && WordChar(s[p])
        invariant q <= p <= |s| && WordEnd(s, p) == WordEnd(s, q)
      {
        p := p + 1;
      }
    }
    var eq := p;
    while p < |s| && White(s[p])
      invariant eq <= p <= |s| && Skip(s, p) == Skip(s, eq)
    {
      p := p + 1;
    }
    t := Token(kind, Span(q, eq), p);
  }

  /** The loop of peek. */
  method ScanPeek(s: string, i: nat, toks: string) returns (found: bool, at: nat)
    requires i <= |s|
    ensures at == Skip(s, i) && found == Peek(s, i, toks)
  {
    at := i;
    while at < |s| && White(s[at])
      invariant i <= at <= |s| && Skip(s, at) == Skip(s, i)
    {
      at := at + 1;
    }
    found := at < |s| && s[at] != NUL && s[at] in toks;
  }

  // ---------------------------------------------------------------- parser

  /** The command and where parsing goes on, or a panic. */
  datatype Parsed = Good(cmd: Cmd, at: nat) | Bad

  datatype Redirs = Redirs(list: seq<(Span, Mode)>, at: nat) | NoFile

  /** The redirections wrap the command, the last one outermost. */
  function Wrap(cmd: Cmd, list: seq<(Span, Mode)>): Cmd {
    if list == [] then cmd else Redir(Wrap(cmd, list[..|list| - 1]), list[|list| - 1].0, list[|list| - 1].1)
  }

  function ParseRedirs(s: string, i: nat): (r: Redirs)
    requires i <= |s|
    ensures r.Redirs? ==> i <= r.at <= |s|
    decreases |s| - i
  {
    if !Peek(s, i, "<>") then Redirs([], Skip(s, i))
    else
      var t := GetToken(s, i);
      var w := GetToken(s, t.next);
      if w.kind != 'a' then NoFile
      else
        match ParseRedirs(s, w.next)
        case NoFile => NoFile
        case Redirs(list, at) => Redirs([(w.span, if t.kind == '<' then ReadIn else WriteOut)] + list, at)
  }

  /** The loop of parseexec over the arguments. */
  function ParseArgs(s: string, args: seq<Span>, list: seq<(Span, Mode)>, i: nat): (r: Parsed)
    requires i <= |s|
    ensures r.Good? ==> i <= r.at <= |s|
    decreases |s| - i
  {
    if Peek(s, i, "|)&;") then Good(Wrap(Exec(args), list), Skip(s, i))
    else
      var t := GetToken(s, i);
      if t.kind == NUL then Good(Wrap(Exec(args), list), t.next)
      else if t.kind != 'a' || |args| + 1 >= MAXARGS then Bad
      else
        match ParseRedirs(s, t.next)
        case NoFile => Bad
        case Redirs(more, at) => ParseArgs(s, args + [t.span], list + more, at)
  }

  function ParseExec(s: string, i: nat): (r: Parsed)
    requires i <= |s|
    ensures r.Good? ==> i <= r.at <= |s|
    decreases |s| - i, 0
  {
    if Peek(s, i, "(") then ParseBlock(s, i)
    else
      match ParseRedirs(s, i)
      case NoFile => Bad
      case Redirs(list, at) => ParseArgs(s, [], list, at)
  }

  function ParseBlock(s: string, i: nat): (r: Parsed)
    requires i <= |s| && Peek(s, i, "(")
    ensures r.Good? ==> i <= r.at <= |s|
    decreases |s| - Skip(s, i), -1
  {
    var t := GetToken(s, i);
    match ParseLine(s, t.next)
    case Bad => Bad
    case Good(cmd, at) =>
      if !Peek(s, at, ")") then Bad
      else
        match ParseRedirs(s, GetToken(s, at).next)
        case NoFile => Bad
        case Redirs(list, at') => Good(Wrap(cmd, list), at')
  }

  function ParsePipe(s: string, i: nat): (r: Parsed)
    requires i <= |s|
    ensures r.Good? ==> i <= r.at <= |s|
    decreases |s| - i, 1
  {
    match ParseExec(s, i)
    case Bad => Bad
    case Good(cmd, at) =>
      if !Peek(s, at, "|") then Good(cmd, Skip(s, at))
      else
        match ParsePipe(s, GetToken(s, at).next)
        case Bad => Bad
        case Good(right, at') => Good(Pipe(cmd, right), at')
  }

  /** The loop of parseline over the ampersands. */
  function ParseBacks(s: string, cmd: Cmd, i: nat): (r: Parsed)
    requires i <= |s|
    ensures r.Good? && i <= r.at <= |s|
    decreases |s| - i
  {
    if Peek(s, i, "&") then ParseBacks(s, Back(cmd), GetToken(s, i).next) else Good(cmd, Skip(s, i))
  }

  function ParseLine(s: string, i: nat): (r: Parsed)
    requires i <= |s|
    ensures r.Good? ==> i <= r.at <= |s|
    decreases |s| - i, 2
  {
    match ParsePipe(s, i)
    case Bad => Bad
    case Good(cmd, at) =>
      var b := ParseBacks(s, cmd, at);
      if !Peek(s, b.at, ";") then b
      else
        match ParseLine(s, GetToken(s, b.at).next)
        case Bad => Bad
        case Good(right, at') => Good(List(b.cmd, right), at')
  }

  /** parsecmd, up to nulterminate. Bad: leftovers, or a syntax error. */
  function ParseCmd(s: string): Parsed {
    match ParseLine(s, 0)
    case Bad => Bad
    case Good(cmd, at) => if Skip(s, at) == |s| then Good(cmd, |s|) else Bad
  }
}
