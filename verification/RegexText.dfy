/** Regular expressions as POSIX writes them (XBD chapter 9 of POSIX.1-2017): text into tokens, tokens into an
    expression, and what part of a line an expression matches. Where POSIX leaves the meaning open, the text
    is not read. */
module RegexText {
  import opened Options

  datatype Token =
    | Char(c: char)
    | AnyChar
    | Bracket(negated: bool, members: string)
    | Repeat(least: nat, most: Option<nat>)
    | LeftParen
    | RightParen
    | Bar
    | LineStart
    | LineEnd
    | Bad

  datatype Regex =
    | Empty
    | One(c: char)
    | Any
    | OneOf(negated: bool, members: string)
    | Start
    | End
    | Cat(first: Regex, second: Regex)
    | Or(left: Regex, right: Regex)
    | Times(re: Regex, least: nat, most: Option<nat>)

  // Tokens

  /** Length of a bracket's members: up to the first `]` that is not the first member. */
  function BracketEnd(s: string, k: nat): (n: nat)
    requires k <= |s|
    ensures k <= n <= |s|
    decreases |s| - k
  {
    if k == |s| || (s[k] == ']' && k > 0) then k else BracketEnd(s, k + 1)
  }

  /** Character classes, equivalence classes and collating symbols are not read. */
  predicate Plain(members: string) {
    forall i :: 0 <= i < |members| - 1 ==> !(members[i] == '[' && members[i + 1] in [':', '.', '='])
  }

  function Digits(s: string): (n: nat)
    ensures n <= |s|
  {
    if s != "" && '0' <= s[0] <= '9' then 1 + Digits(s[1..]) else 0
  }

  function Number(s: string): (n: nat) {
    if s == "" || !('0' <= s[|s| - 1] <= '9') then 0 else Number(s[..|s| - 1]) * 10 + (s[|s| - 1] as int - '0' as int)
  }

  /** The bounds of an interval such as `2`, `2,` or `2,5`. */
  function Bounds(s: string): (t: Token) {
    var d := Digits(s);
    var n, after := Number(s[..d]), s[d..];
    if d == 0 then Bad
    else if after == "" then Repeat(n, Some(n))
    else if after == "," then Repeat(n, None)
    else if after[0] == ',' && Digits(after[1..]) == |after| - 1 then Repeat(n, Some(Number(after[1..])))
    else Bad
  }

  function Find(s: string, word: string): (k: nat)
    ensures k <= |s|
  {
    if |s| < |word| || word == "" then |s| else if s[..|word|] == word then 0 else 1 + Find(s[1..], word)
  }

  /** The tokens of a text; `first` at the start of the expression or of a group. */
  function Tokens(s: string, extended: bool, first: bool): (ts: seq<Token>)
    decreases |s|
  {
    if s == "" then []
    else
      var c, rest := s[0], s[1..];
      if c == '.' then [AnyChar] + Tokens(rest, extended, false)
      else if c == '[' then
        var negated := rest != "" && rest[0] == '^';
        var body := if negated then rest[1..] else rest;
        var n := BracketEnd(body, 0);
        if n == |body| || !Plain(body[..n]) then [Bad] else [Bracket(negated, body[..n])] + Tokens(body[n + 1..], extended, false)
      else if c == '*' then
        if first then (if extended then [Bad] else [Char(c)] + Tokens(rest, extended, false))
        else [Repeat(0, None)] + Tokens(rest, extended, false)
      else if c == '^' && (extended || first) then [LineStart] + Tokens(rest, extended, first)
      else if c == '$' && (extended || rest == "" || Starts(rest, "\\)")) then [LineEnd] + Tokens(rest, extended, false)
      else if c == '\\' then Escaped(rest, extended)
      else if extended then
        if c == '+' then [Repeat(1, None)] + Tokens(rest, extended, false)
        else if c == '?' then [Repeat(0, Some(1))] + Tokens(rest, extended, false)
        else if c == '{' then Interval(rest, "}", extended)
        else if c == '(' then [LeftParen] + Tokens(rest, extended, true)
        else if c == ')' then [RightParen] + Tokens(rest, extended, false)
        else if c == '|' then [Bar] + Tokens(rest, extended, true)
        else [Char(c)] + Tokens(rest, extended, false)
      else [Char(c)] + Tokens(rest, extended, false)
  }

  predicate Starts(s: string, word: string) { |word| <= |s| && s[..|word|] == word }

  /** Behind a backslash: a special character taken literally, or in a basic expression a group or interval. */
  function Escaped(s: string, extended: bool): (ts: seq<Token>)
    decreases |s|
  {
    if s == "" then [Bad]
    else
      var c, rest := s[0], s[1..];
      if c in ".[*^$\\" || (extended && c in "+?{()|") then [Char(c)] + Tokens(rest, extended, false)
      else if extended then [Bad]
      else if c == '(' then [LeftParen] + Tokens(rest, extended, true)
      else if c == ')' then [RightParen] + Tokens(rest, extended, false)
      else if c == '{' then Interval(rest, "\\}", extended)
      else [Bad]
  }

  function Interval(s: string, close: string, extended: bool): (ts: seq<Token>)
    requires close != ""
    decreases |s|
  {
    var n := Find(s, close);
    if n + |close| > |s| then [Bad] else [Bounds(s[..n])] + Tokens(s[n + |close|..], extended, false)
  }

  // Expressions

  datatype Parsed = Failed | Got(re: Regex, rest: seq<Token>)

  function Alternatives(ts: seq<Token>): (p: Parsed)
    ensures p.Got? ==> |p.rest| <= |ts|
    decreases |ts|, 3
  {
    match Branch(ts)
    case Failed => Failed
    case Got(a, rest) =>
      if rest == [] || rest[0] != Bar then Got(a, rest)
      else
        match Alternatives(rest[1..])
        case Failed => Failed
        case Got(b, more) => Got(Or(a, b), more)
  }

  function Branch(ts: seq<Token>): (p: Parsed)
    ensures p.Got? ==> |p.rest| <= |ts|
    decreases |ts|, 2
  {
    if ts == [] || ts[0] == Bar || ts[0] == RightParen then Got(Empty, ts)
    else
      match Atom(ts)
      case Failed => Failed
      case Got(atom, rest) =>
        var piece := Repeated(atom, rest);
        match Branch(piece.rest)
        case Failed => Failed
        case Got(b, more) => Got(Cat(piece.re, b), more)
  }

  function Atom(ts: seq<Token>): (p: Parsed)
    ensures p.Got? ==> |p.rest| < |ts|
    decreases |ts|, 1
  {
    if ts == [] then Failed
    else
      var rest := ts[1..];
      match ts[0]
      case Char(c) => Got(One(c), rest)
      case AnyChar => Got(Any, rest)
      case Bracket(negated, members) => Got(OneOf(negated, members), rest)
      case LineStart => Got(Start, rest)
      case LineEnd => Got(End, rest)
      case LeftParen =>
        var inner := Alternatives(rest);
        if inner.Failed? || inner.rest == [] || inner.rest[0] != RightParen then Failed else Got(inner.re, inner.rest[1..])
      case _ => Failed
  }

  function Repeated(re: Regex, ts: seq<Token>): (p: Parsed)
    ensures p.Got? && |p.rest| <= |ts|
    decreases |ts|, 0
  {
    if ts != [] && ts[0].Repeat? then Repeated(Times(re, ts[0].least, ts[0].most), ts[1..]) else Got(re, ts)
  }

  /** The expression a text stands for. */
  function Read(text: string, extended: bool): (re: Option<Regex>) {
    var p := Alternatives(Tokens(text, extended, true));
    if p.Got? && p.rest == [] then Some(p.re) else None
  }

  // Matching

  predicate Member(c: char, members: string) {
    if members == "" then false
    else if |members| >= 3 && members[1] == '-' then members[0] <= c <= members[2] || Member(c, members[3..])
    else c == members[0] || Member(c, members[1..])
  }

  /** The expression matches the line from i to j. */
  ghost predicate At(line: string, i: nat, j: nat, re: Regex)
    requires i <= j <= |line|
    decreases re, 0
  {
    match re
    case Empty => i == j
    case One(c) => j == i + 1 && line[i] == c
    case Any => j == i + 1
    case OneOf(negated, members) => j == i + 1 && (Member(line[i], members) <==> !negated)
    case Start => i == j == 0
    case End => i == j == |line|
    case Cat(a, b) => exists k :: i <= k <= j && At(line, i, k, a) && At(line, k, j, b)
    case Or(a, b) => At(line, i, j, a) || At(line, i, j, b)
    case Times(r, least, most) => exists n: nat :: least <= n && (most.Some? ==> n <= most.value) && Row(line, i, j, r, n)
  }

  /** n matches in a row. */
  ghost predicate Row(line: string, i: nat, j: nat, re: Regex, n: nat)
    requires i <= j <= |line|
    decreases re, n + 1
  {
    if n == 0 then i == j else exists k :: i <= k <= j && At(line, i, k, re) && Row(line, k, j, re, n - 1)
  }

  /** Some part of the line matches. */
  ghost predicate Matches(line: string, re: Regex) {
    exists i, j :: 0 <= i <= j <= |line| && At(line, i, j, re)
  }
}
