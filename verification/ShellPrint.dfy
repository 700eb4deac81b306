/** Printing a command with as few parentheses as the grammar allows, and
    parsing it back. */
module ShellPrint {
  import opened ShellParser

  function Op(k: Kind): string {
    match k
    case In => "<"
    case Out => ">"
    case Append => ">>"
  }

  function Join(ws: seq<string>): string {
    if |ws| == 0 then "" else if |ws| == 1 then ws[0] else ws[0] + " " + Join(ws[1..])
  }

  /** Where a command stands: as a line, before &, as a pipeline, or as a
      member of one. */
  datatype Level = Line | Job | Pipeline | Member

  /** How loosely a command binds: where it needs no parentheses. */
  function Home(t: Cmd<string>): Level {
    match t
    case List(_, _) => Line
    case Back(_) => Job
    case Pipe(_, _) => Pipeline
    case _ => Member
  }

  function Number(at: Level): nat {
    match at
    case Line => 0
    case Job => 1
    case Pipeline => 2
    case Member => 3
  }

  /** Steps from a level down to the command's own, parentheses leading back up. */
  function Steps(t: Cmd<string>, at: Level): nat { (Number(Home(t)) + 4 - Number(at)) % 4 }

  function Below(at: Level): Level {
    match at
    case Line => Job
    case Job => Pipeline
    case Pipeline => Member
    case Member => Line
  }

  function Print(t: Cmd<string>, at: Level): string
    decreases t, Steps(t, at)
  {
    if at == Home(t) then
      match t
      case List(l, r) => Print(l, Job) + (";" + Print(r, Line))
      case Back(c) => Print(c, Job) + "&"
      case Pipe(l, r) => Print(l, Member) + ("|" + Print(r, Pipeline))
      case Redir(c, f, k) => Print(c, Member) + (Op(k) + f)
      case Exec(ws) => Join(ws)
    else if at.Member? then "(" + Print(t, Line) + ")"
    else Print(t, Below(at))
  }

  ghost predicate GoodWord(w: string) {
    |w| > 0 && forall k :: 0 <= k < |w| ==> IsWordChar(w[k]) && w[k] != '\0'
  }

  ghost predicate AllGood(ws: seq<string>) {
    ws == [] || (GoodWord(ws[0]) && AllGood(ws[1..]))
  }

  ghost predicate GoodTree(t: Cmd<string>) {
    match t
    case Exec(ws) => |ws| < MAXARGS && AllGood(ws)
    case Redir(c, f, _) => GoodTree(c) && GoodWord(f)
    case Pipe(l, r) => GoodTree(l) && GoodTree(r)
    case List(l, r) => GoodTree(l) && GoodTree(r)
    case Back(c) => GoodTree(c)
  }

  /** Tree c over line s spells tree t. */
  ghost predicate Spells(s: string, c: Cmd<Span>, t: Cmd<string>) {
    match c
    case Exec(argv) => t.Exec? && SpellsAll(s, argv, t.argv)
    case Redir(sub, file, kind) => t.Redir? && Spells(s, sub, t.cmd) && SpellsWord(s, file, t.file) && kind == t.kind
    case Pipe(l, r) => t.Pipe? && Spells(s, l, t.left) && Spells(s, r, t.right)
    case List(l, r) => t.List? && Spells(s, l, t.left) && Spells(s, r, t.right)
    case Back(sub) => t.Back? && Spells(s, sub, t.cmd)
  }

  ghost predicate SpellsAll(s: string, argv: seq<Span>, ws: seq<string>) {
    |argv| == |ws| && (argv == [] || (SpellsWord(s, argv[0], ws[0]) && SpellsAll(s, argv[1..], ws[1..])))
  }

  ghost predicate SpellsWord(s: string, w: Span, v: string) {
    w.eq == w.q + |v| && Occurs(s, w.q, v)
  }

  /** v occurs in s at i. */
  ghost predicate Occurs(s: string, i: nat, v: string) {
    i + |v| <= |s| && forall k :: 0 <= k < |v| ==> SameChar(s, i, v, k)
  }

  ghost predicate SameChar(s: string, i: nat, v: string, k: nat)
    requires k < |v| && i + k < |s|
  {
    s[i + k] == v[k]
  }

  lemma OccursSplit(s: string, i: nat, a: string, b: string)
    requires Occurs(s, i, a + b)
    ensures Occurs(s, i, a) && Occurs(s, i + |a|, b)
  {
    forall k | 0 <= k < |a| ensures SameChar(s, i, a, k) {
      assert SameChar(s, i, a + b, k);
    }
    var j := i + |a|;
    forall k | 0 <= k < |b| ensures SameChar(s, j, b, k) {
      assert SameChar(s, i, a + b, |a| + k);
    }
  }

  lemma OccursAt(s: string, i: nat, v: string, k: nat)
    requires Occurs(s, i, v) && k < |v|
    ensures s[i + k] == v[k]
  {
    assert SameChar(s, i, v, k);
  }

  // ----- tokens -----

  lemma WordEndIs(s: string, i: nat, j: nat)
    requires i <= j <= |s| && (forall k :: i <= k < j ==> IsWordChar(s[k])) && (j == |s| || !IsWordChar(s[j]))
    ensures WordEnd(s, i) == j
    decreases j - i
  {
    if i < j {
      WordEndIs(s, i + 1, j);
    }
  }

  /** A good word at i is the next token. */
  lemma WordToken(s: string, i: nat, w: string)
    requires GoodWord(w) && Occurs(s, i, w) && (i + |w| == |s| || !IsWordChar(s[i + |w|]))
    ensures i < |s| && IsWordChar(s[i])
    ensures var t := GetToken(s, i);
            && t.tok == 'a' && t.q == i && t.eq == i + |w| && t.next == SkipSpace(s, i + |w|)
            && SpellsWord(s, Span(t.q, t.eq), w)
  {
    OccursAt(s, i, w, 0);
    forall k | i <= k < i + |w| ensures IsWordChar(s[k]) {
      OccursAt(s, i, w, k - i);
    }
    WordEndIs(s, i, i + |w|);
  }

  /** A symbol other than > is a token of one character. */
  lemma SymbolToken(s: string, i: nat)
    requires i < |s| && IsSymbol(s[i]) && s[i] != '>' && !IsSpace(At(s, i + 1))
    ensures GetToken(s, i) == Token(s[i], i, i + 1, i + 1)
  {
  }

  /** The end of a word and of the space after it: a symbol or the end of the line. */
  ghost predicate Edge(s: string, j: nat) { j <= |s| && (j < |s| ==> IsSymbol(s[j])) }

  lemma NoSpace(s: string, i: nat)
    requires i <= |s| && !IsSpace(At(s, i))
    ensures SkipSpace(s, i) == i
  {
  }

  // ----- steps of the parser -----

  lemma IsLineRest(d: nat, s: string, c: Cmd<Span>, i: nat)
    requires i <= |s|
    ensures Ran(d, s, InLine(c, i)) == LineRest(s, c, i)
  {
    OutcomeIs(3 + d, s, InLine(c, i));
  }

  lemma IsMember(d: nat, s: string, c: Cmd<Span>, argc: nat, block: bool, i: nat)
    requires i <= |s|
    ensures Ran(d, s, InMember(c, argc, block, i)) == MemberRest(s, c, argc, block, i)
  {
    OutcomeIs(3 + d, s, InMember(c, argc, block, i));
  }

  lemma IsArgs(d: nat, s: string, c: Cmd<Span>, argc: nat, i: nat)
    requires i <= |s|
    ensures Ran(d, s, ArgsAt(c, argc, i)) == Args(s, c, argc, i)
  {
    OutcomeIs(3 + d, s, ArgsAt(c, argc, i));
  }

  lemma IsLine(d: nat, s: string, i: nat)
    requires i <= |s|
    ensures Ran(d, s, LineAt(i)) == ParseLine(s, i)
  {
    OutcomeIs(3 + d, s, LineAt(i));
  }

  lemma IsPipe(d: nat, s: string, i: nat)
    requires i <= |s|
    ensures Ran(d, s, PipeAt(i)) == ParsePipe(s, i)
  {
    OutcomeIs(3 + d, s, PipeAt(i));
  }

  lemma IsExec(d: nat, s: string, i: nat)
    requires i <= |s|
    ensures Ran(d, s, ExecAt(i)) == ParseExec(s, i)
  {
    OutcomeIs(3 + d, s, ExecAt(i));
  }

  /** A member of a pipeline ends at the end of the line or at one of these. */
  predicate EndsMember(s: string, j: nat) {
    j == |s| || (j < |s| && (s[j] == '|' || s[j] == ')' || s[j] == '&' || s[j] == ';'))
  }

  lemma NoRedirs(s: string, c: Cmd<Span>, i: nat)
    requires i <= |s| && !IsSpace(At(s, i)) && At(s, i) != '<' && At(s, i) != '>'
    ensures Redirs(s, c, i) == Ok(c, i)
  {
  }

  lemma NoArgs(s: string, c: Cmd<Span>, argc: nat, j: nat)
    requires EndsMember(s, j)
    ensures Args(s, c, argc, j) == Ok(c, j)
  {
  }

  lemma MemberEnds(d: nat, s: string, c: Cmd<Span>, argc: nat, block: bool, j: nat)
    requires EndsMember(s, j)
    ensures Ran(d, s, InMember(c, argc, block, j)) == Ok(c, j)
  {
    NoRedirs(s, c, j);
    NoArgs(s, c, argc, j);
    IsMember(d, s, c, argc, block, j);
  }

  /** No redirection here: on to the arguments. */
  lemma MemberArgs(d: nat, s: string, c: Cmd<Span>, argc: nat, i: nat)
    requires i <= |s| && !IsSpace(At(s, i)) && At(s, i) != '<' && At(s, i) != '>'
    ensures Ran(d, s, InMember(c, argc, false, i)) == Ran(d, s, ArgsAt(c, argc, i))
  {
    NoRedirs(s, c, i);
    IsMember(d, s, c, argc, false, i);
    IsArgs(d, s, c, argc, i);
  }

  /** A simple command starts. */
  lemma ExecStarts(d: nat, s: string, i: nat)
    requires i <= |s| && !IsSpace(At(s, i)) && At(s, i) != '('
    ensures Ran(d, s, ExecAt(i)) == Ran(d, s, InMember(Exec([]), 0, false, i))
  {
    NoSpace(s, i);
    IsExec(d, s, i);
    IsMember(d, s, Exec([]), 0, false, i);
  }

  lemma NoStop(s: string, i: nat)
    requires i < |s| && IsWordChar(s[i])
    ensures !Peek(s, i, "|)&;")
  {
  }

  lemma ArgUnfolds(s: string, c: Cmd<Span>, argc: nat, i: nat, t: Token)
    requires i <= |s| && !Peek(s, i, "|)&;") && t == GetToken(s, i) && t.tok == 'a' && argc + 1 < MAXARGS
    ensures Args(s, c, argc, i) == MemberRest(s, AddArg(c, Span(t.q, t.eq)), argc + 1, false, t.next)
  {
  }

  lemma ArgStep(d: nat, s: string, c: Cmd<Span>, argc: nat, i: nat, t: Token)
    requires i < |s| && IsWordChar(s[i]) && t == GetToken(s, i) && t.tok == 'a' && argc + 1 < MAXARGS
    ensures Ran(d, s, ArgsAt(c, argc, i)) ==
            Ran(d, s, InMember(AddArg(c, Span(t.q, t.eq)), argc + 1, false, t.next))
  {
    NoStop(s, i);
    ArgUnfolds(s, c, argc, i, t);
    IsArgs(d, s, c, argc, i);
    IsMember(d, s, AddArg(c, Span(t.q, t.eq)), argc + 1, false, t.next);
  }

  lemma RedirUnfolds(s: string, c: Cmd<Span>, i: nat, t: Token, f: Token)
    requires i <= |s| && Peek(s, i, "<>") && t == GetToken(s, i) && f == GetToken(s, t.next) && f.tok == 'a'
    ensures Redirs(s, c, i) == Redirs(s, Redir(c, Span(f.q, f.eq), KindOf(t.tok)), f.next)
  {
  }

  lemma RedirStep(d: nat, s: string, c: Cmd<Span>, argc: nat, block: bool, i: nat, t: Token, f: Token)
    requires i <= |s| && Peek(s, i, "<>") && t == GetToken(s, i) && f == GetToken(s, t.next) && f.tok == 'a'
    ensures Ran(d, s, InMember(c, argc, block, i)) ==
            Ran(d, s, InMember(Redir(c, Span(f.q, f.eq), KindOf(t.tok)), argc, block, f.next))
  {
    RedirUnfolds(s, c, i, t, f);
    IsMember(d, s, c, argc, block, i);
    IsMember(d, s, Redir(c, Span(f.q, f.eq), KindOf(t.tok)), argc, block, f.next);
  }

  /** After a pipeline: more &s, another line, or the end. */
  lemma LineGoesOn(d: nat, s: string, i: nat, c: Cmd<Span>, j: nat)
    requires i <= j <= |s| && Ran(d, s, PipeAt(i)) == Ok(c, j)
    ensures Ran(d, s, LineAt(i)) == Ran(d, s, InLine(c, j))
  {
    IsPipe(d, s, i);
    IsLine(d, s, i);
    IsLineRest(d, s, c, j);
  }

  lemma LineBack(d: nat, s: string, c: Cmd<Span>, j: nat)
    requires j < |s| && s[j] == '&' && !IsSpace(At(s, j + 1))
    ensures Ran(d, s, InLine(c, j)) == Ran(d, s, InLine(Back(c), j + 1))
  {
    SymbolToken(s, j);
    assert Backs(s, c, j) == Backs(s, Back(c), j + 1);
    IsLineRest(d, s, c, j);
    IsLineRest(d, s, Back(c), j + 1);
  }

  lemma LineEnds(d: nat, s: string, c: Cmd<Span>, j: nat)
    requires j == |s| || (j < |s| && s[j] == ')')
    ensures Ran(d, s, InLine(c, j)) == Ok(c, j)
  {
    NoBacks(s, c, j);
    IsLineRest(d, s, c, j);
  }

  lemma NoBacks(s: string, c: Cmd<Span>, j: nat)
    requires j <= |s| && !IsSpace(At(s, j)) && At(s, j) != '&'
    ensures Backs(s, c, j) == (c, j)
  {
  }

  lemma LineJoins(d: nat, s: string, l: Cmd<Span>, j: nat, r: Cmd<Span>, e: nat)
    requires j < |s| && s[j] == ';' && !IsSpace(At(s, j + 1)) && Ran(d, s, LineAt(j + 1)) == Ok(r, e)
    ensures Ran(d, s, InLine(l, j)) == Ok(List(l, r), e)
  {
    SymbolToken(s, j);
    NoBacks(s, l, j);
    IsLine(d, s, j + 1);
    IsLineRest(d, s, l, j);
  }

  lemma PipeJoins(d: nat, s: string, i: nat, l: Cmd<Span>, j: nat, r: Cmd<Span>, e: nat)
    requires i <= j < |s| && s[j] == '|' && !IsSpace(At(s, j + 1))
    requires Ran(d, s, ExecAt(i)) == Ok(l, j) && Ran(d, s, PipeAt(j + 1)) == Ok(r, e)
    ensures Ran(d, s, PipeAt(i)) == Ok(Pipe(l, r), e)
  {
    SymbolToken(s, j);
    IsExec(d, s, i);
    IsPipe(d, s, j + 1);
    IsPipe(d, s, i);
  }

  lemma OnlyMember(d: nat, s: string, i: nat, c: Cmd<Span>, j: nat)
    requires i <= j <= |s| && Ran(d, s, ExecAt(i)) == Ok(c, j) && !IsSpace(At(s, j)) && At(s, j) != '|'
    ensures Ran(d, s, PipeAt(i)) == Ok(c, j)
  {
    NoSpace(s, j);
    IsExec(d, s, i);
    IsPipe(d, s, i);
  }

  /** A parenthesised line, up to its redirections. */
  lemma BlockTrip(d: nat, s: string, i: nat, c: Cmd<Span>, j: nat)
    requires i < |s| && s[i] == '(' && !IsSpace(At(s, i + 1)) && Ran(d, s, LineAt(i + 1)) == Ok(c, j)
    requires j < |s| && s[j] == ')' && Edge(s, j + 1)
    ensures Ran(d, s, ExecAt(i)) == Ran(d, s, InMember(c, 0, true, j + 1))
  {
    BlockOpens(d, s, i);
    BlockCloses(d, s, c, j);
  }

  lemma BlockOpens(d: nat, s: string, i: nat)
    requires i < |s| && s[i] == '(' && !IsSpace(At(s, i + 1))
    ensures Ran(d, s, ExecAt(i)) == CloseBlock(s, Ran(d, s, LineAt(i + 1)))
  {
    OpenUnfolds(s, i);
    IsLine(d, s, i + 1);
    IsExec(d, s, i);
  }

  lemma BlockCloses(d: nat, s: string, c: Cmd<Span>, j: nat)
    requires j < |s| && s[j] == ')' && Edge(s, j + 1)
    ensures CloseBlock(s, Ok(c, j)) == Ran(d, s, InMember(c, 0, true, j + 1))
  {
    CloseUnfolds(s, c, j);
    IsMember(d, s, c, 0, true, j + 1);
  }

  lemma OpenUnfolds(s: string, i: nat)
    requires i < |s| && s[i] == '(' && !IsSpace(At(s, i + 1))
    ensures ParseExec(s, i) == CloseBlock(s, ParseLine(s, i + 1))
  {
    SymbolToken(s, i);
    assert ParseExec(s, i) == ParseBlock(s, i);
  }

  lemma CloseUnfolds(s: string, c: Cmd<Span>, j: nat)
    requires j < |s| && s[j] == ')' && Edge(s, j + 1)
    ensures CloseBlock(s, Ok(c, j)) == Redirs(s, c, j + 1)
  {
    SymbolToken(s, j);
  }

  // ----- simple commands -----

  lemma RedirPieces(s: string, i: nat, k: Kind, f: string)
    requires GoodWord(f) && Occurs(s, i, Op(k) + f)
    ensures var q := i + |Op(k)|;
            && q < |s| && IsWordChar(s[q]) && Occurs(s, q, f) && s[i] == Op(k)[0] && (k.Append? ==> s[i + 1] == '>')
  {
    OccursSplit(s, i, Op(k), f);
    OccursAt(s, i, Op(k), 0);
    OccursAt(s, i + |Op(k)|, f, 0);
    if k.Append? {
      OccursAt(s, i, Op(k), 1);
    }
  }

  lemma OperatorToken(s: string, i: nat, k: Kind)
    requires var q := i + |Op(k)|; q < |s| && IsWordChar(s[q])
    requires s[i] == Op(k)[0] && (k.Append? ==> s[i + 1] == '>')
    ensures var t := GetToken(s, i); Peek(s, i, "<>") && t.next == i + |Op(k)| && KindOf(t.tok) == k
  {
  }

  /** One more redirection. */
  lemma MoreRedirs(d: nat, s: string, c: Cmd<Span>, argc: nat, block: bool, j: nat, k: Kind, f: string)
    requires GoodWord(f) && Occurs(s, j, Op(k) + f) && Edge(s, j + |Op(k) + f|)
    ensures var q, e := j + |Op(k)|, j + |Op(k) + f|;
            && SpellsWord(s, Span(q, e), f)
            && Ran(d, s, InMember(c, argc, block, j)) ==
               Ran(d, s, InMember(Redir(c, Span(q, e), k), argc, block, e))
  {
    RedirPieces(s, j, k, f);
    OperatorToken(s, j, k);
    WordToken(s, j + |Op(k)|, f);
    NoSpace(s, j + |Op(k) + f|);
    RedirStep(d, s, c, argc, block, j, GetToken(s, j), GetToken(s, j + |Op(k)|));
  }

  /** Where the words of Join(ws) lie when it starts at i. */
  ghost function Spans(i: nat, ws: seq<string>): seq<Span>
    decreases |ws|
  {
    if ws == [] then [] else [Span(i, i + |ws[0]|)] + Spans(i + |ws[0]| + 1, ws[1..])
  }

  /** What follows the first of several words: a space and the other words. */
  lemma JoinSplit(s: string, i: nat, ws: seq<string>)
    requires |ws| > 1 && Occurs(s, i, Join(ws)) && AllGood(ws)
    ensures var j := i + |ws[0]|;
            && Occurs(s, i, ws[0]) && j < |s| && s[j] == ' ' && SkipSpace(s, j) == j + 1
            && Occurs(s, j + 1, Join(ws[1..])) && j + 1 + |Join(ws[1..])| == i + |Join(ws)|
            && j + 1 < |s| && IsWordChar(s[j + 1])
  {
    OccursSplit(s, i, ws[0] + " ", Join(ws[1..]));
    OccursSplit(s, i, ws[0], " ");
    OccursAt(s, i + |ws[0]|, " ", 0);
    JoinStarts(ws[1..]);
    OccursAt(s, i + |ws[0]| + 1, Join(ws[1..]), 0);
  }

  lemma JoinStarts(ws: seq<string>)
    requires |ws| > 0 && GoodWord(ws[0])
    ensures |Join(ws)| > 0 && Join(ws)[0] == ws[0][0] && IsWordChar(Join(ws)[0])
  {
  }

  lemma {:induction false} SpansSpell(s: string, i: nat, ws: seq<string>)
    requires Occurs(s, i, Join(ws)) && AllGood(ws)
    ensures SpellsAll(s, Spans(i, ws), ws)
    decreases |ws|
  {
    if ws != [] {
      if |ws| > 1 {
        JoinSplit(s, i, ws);
        SpansSpell(s, i + |ws[0]| + 1, ws[1..]);
      }
      SpellsOneMore(s, Span(i, i + |ws[0]|), Spans(i + |ws[0]| + 1, ws[1..]), ws);
    }
  }

  lemma SpellsOneMore(s: string, w: Span, rest: seq<Span>, ws: seq<string>)
    requires |ws| > 0 && SpellsWord(s, w, ws[0]) && SpellsAll(s, rest, ws[1..])
    ensures SpellsAll(s, [w] + rest, ws)
  {
    assert ([w] + rest)[1..] == rest;
  }

  lemma SpansStep(argv: seq<Span>, i: nat, ws: seq<string>)
    requires |ws| > 0
    ensures argv + [Span(i, i + |ws[0]|)] + Spans(i + |ws[0]| + 1, ws[1..]) == argv + Spans(i, ws)
  {
  }

  /** One argument: after it the parser looks for redirections. */
  lemma OneArg(d: nat, s: string, i: nat, w: string, argv: seq<Span>, argc: nat)
    requires GoodWord(w) && Occurs(s, i, w) && (i + |w| == |s| || !IsWordChar(s[i + |w|])) && argc + 1 < MAXARGS
    ensures Ran(d, s, ArgsAt(Exec(argv), argc, i)) ==
            Ran(d, s, InMember(Exec(argv + [Span(i, i + |w|)]), argc + 1, false, SkipSpace(s, i + |w|)))
  {
    WordToken(s, i, w);
    ArgStep(d, s, Exec(argv), argc, i, GetToken(s, i));
  }

  /** An argument that another one follows. */
  lemma NextArg(d: nat, s: string, i: nat, ws: seq<string>, argv: seq<Span>, argc: nat)
    requires |ws| > 1 && Occurs(s, i, Join(ws)) && argc + 1 < MAXARGS && AllGood(ws)
    ensures var j := i + |ws[0]| + 1;
            && Occurs(s, j, Join(ws[1..])) && j + |Join(ws[1..])| == i + |Join(ws)|
            && Ran(d, s, ArgsAt(Exec(argv), argc, i)) ==
               Ran(d, s, ArgsAt(Exec(argv + [Span(i, i + |ws[0]|)]), argc + 1, j))
  {
    JoinSplit(s, i, ws);
    OneArg(d, s, i, ws[0], argv, argc);
    MemberArgs(d, s, Exec(argv + [Span(i, i + |ws[0]|)]), argc + 1, i + |ws[0]| + 1);
  }

  /** All the arguments, up to a symbol or the end of the line. */
  lemma {:induction false} ArgsTrip(d: nat, s: string, i: nat, ws: seq<string>, argv: seq<Span>, argc: nat)
    requires |ws| > 0 && Occurs(s, i, Join(ws)) && Edge(s, i + |Join(ws)|) && argc + |ws| < MAXARGS && AllGood(ws)
    ensures Ran(d, s, ArgsAt(Exec(argv), argc, i)) ==
            Ran(d, s, InMember(Exec(argv + Spans(i, ws)), argc + |ws|, false, i + |Join(ws)|))
    decreases |ws|
  {
    SpansStep(argv, i, ws);
    if |ws| == 1 {
      NoSpace(s, i + |ws[0]|);
      OneArg(d, s, i, ws[0], argv, argc);
      assert Spans(i, ws) == [Span(i, i + |ws[0]|)];
    } else {
      NextArg(d, s, i, ws, argv, argc);
      ArgsTrip(d, s, i + |ws[0]| + 1, ws[1..], argv + [Span(i, i + |ws[0]|)], argc + 1);
    }
  }

  /** The words of a simple command. */
  lemma WordsTrip(d: nat, s: string, i: nat, ws: seq<string>)
    requires Occurs(s, i, Join(ws)) && Edge(s, i + |Join(ws)|) && |ws| < MAXARGS && AllGood(ws)
    requires ws == [] ==> At(s, i) != '('
    ensures Ran(d, s, ExecAt(i)) == Ran(d, s, InMember(Exec(Spans(i, ws)), |ws|, false, i + |Join(ws)|))
  {
    if ws == [] {
      ExecStarts(d, s, i);
    } else {
      JoinStarts(ws);
      OccursAt(s, i, Join(ws), 0);
      ExecStarts(d, s, i);
      MemberArgs(d, s, Exec([]), 0, i);
      ArgsTrip(d, s, i, ws, [], 0);
      assert [] + Spans(i, ws) == Spans(i, ws);
    }
  }

  // ----- blocks -----

  lemma {:induction false} PrintStarts(t: Cmd<string>, at: Level)
    requires GoodTree(t)
    ensures Print(t, at) == "" || !IsSpace(Print(t, at)[0])
    decreases t, Steps(t, at)
  {
    if at == Home(t) {
      match t
      case List(l, _) => PrintStarts(l, Job);
      case Back(c) => PrintStarts(c, Job);
      case Pipe(l, _) => PrintStarts(l, Member);
      case Redir(c, _, _) => PrintStarts(c, Member);
      case Exec(ws) =>
        if ws != [] {
          JoinStarts(ws);
        }
    } else if !at.Member? {
      PrintStarts(t, Below(at));
    }
  }

  /** The pieces of a printed parenthesised command. */
  lemma ParenSplit(s: string, i: nat, v: string)
    requires Occurs(s, i, "(" + v + ")") && (v == "" || !IsSpace(v[0]))
    ensures var j := i + 1 + |v|;
            i < j < |s| && s[i] == '(' && Occurs(s, i + 1, v) && s[j] == ')' && !IsSpace(At(s, i + 1))
  {
    OccursSplit(s, i, "(" + v, ")");
    OccursSplit(s, i, "(", v);
    OccursAt(s, i, "(", 0);
    OccursAt(s, i + 1 + |v|, ")", 0);
    if v != "" {
      OccursAt(s, i + 1, v, 0);
    }
  }

  // ----- the round trip, level by level -----

  /** What may follow a command printed at a level. */
  predicate Follows(s: string, j: nat, at: Level) {
    j == |s| || (j < |s| &&
      match at
      case Line => s[j] == ')'
      case Job => s[j] == ')' || s[j] == ';' || s[j] == '&'
      case Pipeline => s[j] == ')' || s[j] == ';' || s[j] == '&'
      case Member => IsSymbol(s[j]) && s[j] != '(')
  }

  /** What follows an operator is not white space. */
  lemma NoGap(s: string, i: nat, t: Cmd<string>, at: Level)
    requires GoodTree(t) && Occurs(s, i, Print(t, at)) && Follows(s, i + |Print(t, at)|, at)
    ensures !IsSpace(At(s, i))
  {
    PrintStarts(t, at);
    if Print(t, at) != "" {
      OccursAt(s, i, Print(t, at), 0);
    }
  }

  /** The text of an operator between two others. */
  lemma InfixSplit(s: string, i: nat, a: string, op: string, b: string)
    requires |op| == 1 && Occurs(s, i, a + (op + b))
    ensures var j := i + |a|; Occurs(s, i, a) && j < |s| && s[j] == op[0] && Occurs(s, j + 1, b)
  {
    OccursSplit(s, i, a, op + b);
    OccursSplit(s, i + |a|, op, b);
    OccursAt(s, i + |a|, op, 0);
  }

  lemma {:induction false} MemberTrip(d: nat, s: string, i: nat, t: Cmd<string>)
    returns (c: Cmd<Span>, argc: nat, block: bool)
    requires GoodTree(t) && Occurs(s, i, Print(t, Member)) && Follows(s, i + |Print(t, Member)|, Member)
    ensures Ran(d, s, ExecAt(i)) == Ran(d, s, InMember(c, argc, block, i + |Print(t, Member)|))
    ensures Spells(s, c, t)
    decreases t, Steps(t, Member), 1
  {
    match t
    case Exec(ws) =>
      WordsTrip(d, s, i, ws);
      SpansSpell(s, i, ws);
      c, argc, block := Exec(Spans(i, ws)), |ws|, false;
    case Redir(sub, f, k) =>
      c, argc, block := RedirTrip(d, s, i, sub, k, f);
    case _ =>
      c := BracketTrip(d, s, i, t);
      argc, block := 0, true;
  }

  lemma {:induction false} RedirTrip(d: nat, s: string, i: nat, sub: Cmd<string>, k: Kind, f: string)
    returns (c: Cmd<Span>, argc: nat, block: bool)
    requires GoodTree(sub) && GoodWord(f) && Occurs(s, i, Print(sub, Member) + (Op(k) + f))
    requires Edge(s, i + |Print(sub, Member) + (Op(k) + f)|)
    ensures Ran(d, s, ExecAt(i)) == Ran(d, s, InMember(c, argc, block, i + |Print(sub, Member) + (Op(k) + f)|))
    ensures c.Redir? && Spells(s, c.cmd, sub) && SpellsWord(s, c.file, f) && c.kind == k
    decreases sub, 4, 0
  {
    var j := i + |Print(sub, Member)|;
    OccursSplit(s, i, Print(sub, Member), Op(k) + f);
    OccursAt(s, j, Op(k) + f, 0);
    c, argc, block := MemberTrip(d, s, i, sub);
    MoreRedirs(d, s, c, argc, block, j, k, f);
    c := Redir(c, Span(j + |Op(k)|, j + |Op(k) + f|), k);
  }

  lemma {:induction false} BracketTrip(d: nat, s: string, i: nat, t: Cmd<string>) returns (c: Cmd<Span>)
    requires Home(t) != Member && GoodTree(t)
    requires Occurs(s, i, Print(t, Member)) && Follows(s, i + |Print(t, Member)|, Member)
    ensures Ran(d, s, ExecAt(i)) == Ran(d, s, InMember(c, 0, true, i + |Print(t, Member)|))
    ensures Spells(s, c, t)
    decreases t, Steps(t, Member), 0
  {
    var v := Print(t, Line);
    PrintStarts(t, Line);
    ParenSplit(s, i, v);
    c := LineTrip(d, s, i + 1, t);
    BlockTrip(d, s, i, c, i + 1 + |v|);
  }

  /** A member of a pipeline up to its end. */
  lemma {:induction false} WholeMember(d: nat, s: string, i: nat, t: Cmd<string>) returns (c: Cmd<Span>)
    requires GoodTree(t) && Occurs(s, i, Print(t, Member)) && EndsMember(s, i + |Print(t, Member)|)
    ensures Ran(d, s, ExecAt(i)) == Ok(c, i + |Print(t, Member)|) && Spells(s, c, t)
    decreases t, Steps(t, Member), 2
  {
    var argc, block;
    c, argc, block := MemberTrip(d, s, i, t);
    MemberEnds(d, s, c, argc, block, i + |Print(t, Member)|);
  }

  lemma {:induction false} PipeTrip(d: nat, s: string, i: nat, t: Cmd<string>) returns (c: Cmd<Span>)
    requires GoodTree(t) && Occurs(s, i, Print(t, Pipeline)) && Follows(s, i + |Print(t, Pipeline)|, Pipeline)
    ensures Ran(d, s, PipeAt(i)) == Ok(c, i + |Print(t, Pipeline)|) && Spells(s, c, t)
    decreases t, Steps(t, Pipeline), 3
  {
    if t.Pipe? {
      var v, w := Print(t.left, Member), Print(t.right, Pipeline);
      InfixSplit(s, i, v, "|", w);
      var j := i + |v|;
      assert j + 1 + |w| == i + |Print(t, Pipeline)|;
      var l := WholeMember(d, s, i, t.left);
      var r := PipeTrip(d, s, j + 1, t.right);
      NoGap(s, j + 1, t.right, Pipeline);
      PipeJoins(d, s, i, l, j, r, j + 1 + |w|);
      c := Pipe(l, r);
    } else {
      c := WholeMember(d, s, i, t);
      OnlyMember(d, s, i, c, i + |Print(t, Pipeline)|);
    }
  }

  /** A pipeline and the &s after it. */
  lemma {:induction false} JobTrip(d: nat, s: string, i: nat, t: Cmd<string>) returns (c: Cmd<Span>)
    requires GoodTree(t) && Occurs(s, i, Print(t, Job)) && Follows(s, i + |Print(t, Job)|, Job)
    ensures Ran(d, s, LineAt(i)) == Ran(d, s, InLine(c, i + |Print(t, Job)|)) && Spells(s, c, t)
    decreases t, Steps(t, Job), 4
  {
    if t.Back? {
      var v := Print(t.cmd, Job);
      OccursSplit(s, i, v, "&");
      OccursAt(s, i + |v|, "&", 0);
      c := JobTrip(d, s, i, t.cmd);
      LineBack(d, s, c, i + |v|);
      c := Back(c);
    } else {
      c := PipeTrip(d, s, i, t);
      LineGoesOn(d, s, i, c, i + |Print(t, Pipeline)|);
    }
  }

  lemma {:induction false} LineTrip(d: nat, s: string, i: nat, t: Cmd<string>) returns (c: Cmd<Span>)
    requires GoodTree(t) && Occurs(s, i, Print(t, Line)) && Follows(s, i + |Print(t, Line)|, Line)
    ensures Ran(d, s, LineAt(i)) == Ok(c, i + |Print(t, Line)|) && Spells(s, c, t)
    decreases t, Steps(t, Line), 5
  {
    if t.List? {
      var v, w := Print(t.left, Job), Print(t.right, Line);
      InfixSplit(s, i, v, ";", w);
      var j := i + |v|;
      assert j + 1 + |w| == i + |Print(t, Line)|;
      var l := JobTrip(d, s, i, t.left);
      var r := LineTrip(d, s, j + 1, t.right);
      NoGap(s, j + 1, t.right, Line);
      LineJoins(d, s, l, j, r, j + 1 + |w|);
      c := List(l, r);
    } else {
      c := JobTrip(d, s, i, t);
      LineEnds(d, s, c, i + |Print(t, Line)|);
    }
  }

  /** For every tree with at most nine good words per EXEC node, parsing its
      printing gives the same tree back: | binds tighter than &, & tighter than
      ;, | and ; nest to the right, and redirections belong to the command they
      follow. */
  lemma RoundTrip(t: Cmd<string>) returns (c: Cmd<Span>)
    requires GoodTree(t)
    ensures var line := Print(t, Line); ParseCmd(line) == Ok(c, |line|) && Spells(line, c, t)
  {
    var line := Print(t, Line);
    c := LineTrip(0, line, 0, t);
    IsLine(0, line, 0);
  }

  // ----- the limit on arguments -----

  /** The tenth word of a command panics. */
  lemma LastArg(d: nat, s: string, i: nat, w: string, c: Cmd<Span>)
    requires GoodWord(w) && Occurs(s, i, w) && (i + |w| == |s| || !IsWordChar(s[i + |w|]))
    ensures Ran(d, s, ArgsAt(c, MAXARGS - 1, i)) == Err(TooManyArgs)
  {
    WordToken(s, i, w);
    NoStop(s, i);
    IsArgs(d, s, c, MAXARGS - 1, i);
  }

  lemma {:induction false} ArgsOverflow(d: nat, s: string, i: nat, ws: seq<string>, argv: seq<Span>, argc: nat)
    requires Occurs(s, i, Join(ws)) && i + |Join(ws)| == |s| && argc < MAXARGS <= argc + |ws| && AllGood(ws)
    ensures Ran(d, s, ArgsAt(Exec(argv), argc, i)) == Err(TooManyArgs)
    decreases |ws|
  {
    if argc + 1 == MAXARGS {
      if |ws| > 1 {
        JoinSplit(s, i, ws);
      }
      LastArg(d, s, i, ws[0], Exec(argv));
    } else {
      NextArg(d, s, i, ws, argv, argc);
      ArgsOverflow(d, s, i + |ws[0]| + 1, ws[1..], argv + [Span(i, i + |ws[0]|)], argc + 1);
    }
  }

  lemma PanicSpreads(s: string, why: Panic)
    requires ParseExec(s, 0) == Err(why)
    ensures ParseCmd(s) == Err(why)
  {
    assert ParsePipe(s, 0) == Err(why);
    assert ParseLine(s, 0) == Err(why);
  }

  lemma TenWordsPanic(d: nat, s: string, ws: seq<string>)
    requires AllGood(ws) && |ws| >= MAXARGS && s == Join(ws)
    ensures Ran(d, s, ExecAt(0)) == Err(TooManyArgs)
  {
    JoinStarts(ws);
    ExecStarts(d, s, 0);
    MemberArgs(d, s, Exec([]), 0, 0);
    ArgsOverflow(d, s, 0, ws, [], 0);
  }

  /** Nine is the exact limit: a simple command of good words parses if and
      only if it has at most nine of them. */
  lemma NineWordsAtMost(s: string, ws: seq<string>)
    requires AllGood(ws) && s == Join(ws)
    ensures ParseCmd(s).Ok? <==> |ws| < MAXARGS
    ensures |ws| >= MAXARGS ==> ParseCmd(s) == Err(TooManyArgs)
  {
    if |ws| < MAXARGS {
      var t: Cmd<string> := Exec(ws);
      assert Print(t, Line) == Print(t, Job) == Print(t, Pipeline) == s;
      var c := RoundTrip(t);
    } else {
      TenWordsPanic(0, s, ws);
      IsExec(0, s, 0);
      PanicSpreads(s, TooManyArgs);
    }
  }
}
