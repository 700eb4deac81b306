/** For every line that parses, its tokens against the command: no argument,
    redirection or operator is lost, doubled or moved. */
module ShellTokens {
  import opened ShellParser

  /** What is left of a line without its parentheses and its redirections, or
      without its parentheses and its arguments. */
  datatype View = Words | Files

  datatype Item = Arg(w: Span) | File(kind: Kind, w: Span) | Operator(c: char)

  /** The items of the line from i on, read token by token: a redirection
      operator belongs with the token after it. */
  function LineItems(v: View, s: string, i: nat): seq<Item>
    requires i <= |s|
    decreases |s| - i
  {
    var t := GetToken(s, i);
    if t.tok == '\0' then []
    else if t.tok == '<' || t.tok == '>' || t.tok == '+' then
      var f := GetToken(s, t.next);
      FileItem(v, t.tok, f) + LineItems(v, s, f.next)
    else if t.tok == 'a' then WordItem(v, Span(t.q, t.eq)) + LineItems(v, s, t.next)
    else if t.tok == '(' || t.tok == ')' then LineItems(v, s, t.next)
    else [Operator(t.tok)] + LineItems(v, s, t.next)
  }

  function FileItem(v: View, op: char, f: Token): seq<Item> {
    if v.Files? then [File(KindOf(op), Span(f.q, f.eq))] else []
  }

  function WordItem(v: View, w: Span): seq<Item> { if v.Words? then [Arg(w)] else [] }

  /** The items of a command, from left to right; a redirection comes after
      those inside it. */
  function CmdItems(v: View, c: Cmd<Span>): seq<Item> {
    match c
    case Exec(argv) => if v.Words? then ArgItems(argv) else []
    case Redir(sub, file, kind) => CmdItems(v, sub) + (if v.Files? then [File(kind, file)] else [])
    case Pipe(l, r) => CmdItems(v, l) + ([Operator('|')] + CmdItems(v, r))
    case List(l, r) => CmdItems(v, l) + ([Operator(';')] + CmdItems(v, r))
    case Back(sub) => CmdItems(v, sub) + [Operator('&')]
  }

  function ArgItems(argv: seq<Span>): seq<Item> {
    seq(|argv|, k requires 0 <= k < |argv| => Arg(argv[k]))
  }

  /** A simple command: an EXEC node inside redirections. */
  predicate Simple(c: Cmd<Span>) { c.Exec? || (c.Redir? && Simple(c.cmd)) }

  lemma Joined<T>(a: seq<T>, b: seq<T>, c: seq<T>)
    ensures a + b + c == a + (b + c) && a + [] == a && [] + a == a
  {
  }

  // ----- the items still to be read, one token at a time -----

  /** LineItems, read through a depth that proofs leave open. */
  ghost function Deep(d: nat, v: View, s: string, i: nat): seq<Item>
    requires i <= |s|
  {
    if d > 0 then Deep(d - 1, v, s, i) else LineItems(v, s, i)
  }

  lemma {:induction false} DeepIs(d: nat, v: View, s: string, i: nat)
    requires i <= |s|
    ensures Deep(d, v, s, i) == LineItems(v, s, i)
  {
    if d > 0 {
      DeepIs(d - 1, v, s, i);
    }
  }

  ghost function Rest(d: nat, v: View, s: string, i: nat): seq<Item>
    requires i <= |s|
  {
    Deep(3 + d, v, s, i)
  }

  lemma RestIs(d: nat, v: View, s: string, i: nat)
    requires i <= |s|
    ensures Rest(d, v, s, i) == LineItems(v, s, i)
  {
    DeepIs(3 + d, v, s, i);
  }

  lemma RestEnd(d: nat, v: View, s: string, i: nat)
    requires i <= |s| && GetToken(s, i).tok == '\0'
    ensures Rest(d, v, s, i) == []
  {
    RestIs(d, v, s, i);
  }

  lemma RestSkip(d: nat, v: View, s: string, i: nat)
    requires i <= |s|
    ensures Rest(d, v, s, SkipSpace(s, i)) == Rest(d, v, s, i)
  {
    SkipTwice(s, i);
    RestIs(d, v, s, i);
    RestIs(d, v, s, SkipSpace(s, i));
  }

  lemma RestRedir(d: nat, v: View, s: string, i: nat)
    requires i <= |s| && Peek(s, i, "<>")
    ensures var t := GetToken(s, i);
            var f := GetToken(s, t.next);
            i < t.next && Rest(d, v, s, i) == FileItem(v, t.tok, f) + Rest(d, v, s, f.next)
  {
    RestIs(d, v, s, i);
    RestIs(d, v, s, GetToken(s, GetToken(s, i).next).next);
  }

  lemma RestWord(d: nat, v: View, s: string, i: nat)
    requires i <= |s| && GetToken(s, i).tok == 'a'
    ensures var t := GetToken(s, i);
            i < t.next && Rest(d, v, s, i) == WordItem(v, Span(t.q, t.eq)) + Rest(d, v, s, t.next)
  {
    RestIs(d, v, s, i);
    RestIs(d, v, s, GetToken(s, i).next);
  }

  lemma RestParen(d: nat, v: View, s: string, i: nat)
    requires i <= |s| && (Peek(s, i, "(") || Peek(s, i, ")"))
    ensures i < GetToken(s, i).next && Rest(d, v, s, i) == Rest(d, v, s, GetToken(s, i).next)
  {
    RestIs(d, v, s, i);
    RestIs(d, v, s, GetToken(s, i).next);
  }

  lemma RestOp(d: nat, v: View, s: string, i: nat, op: char)
    requires i <= |s| && (op == '|' || op == ';' || op == '&') && Peek(s, i, [op])
    ensures i < GetToken(s, i).next && Rest(d, v, s, i) == [Operator(op)] + Rest(d, v, s, GetToken(s, i).next)
  {
    RestIs(d, v, s, i);
    RestIs(d, v, s, GetToken(s, i).next);
  }

  // ----- parsing moves items from the line to the command -----

  /** What has been read, and what is still to be. */
  ghost function Whole(d: nat, v: View, s: string, c: Cmd<Span>, i: nat): seq<Item>
    requires i <= |s|
  {
    CmdItems(v, c) + Rest(d, v, s, i)
  }

  lemma {:induction false} AddArgItems(v: View, c: Cmd<Span>, w: Span)
    requires Simple(c)
    ensures Simple(AddArg(c, w)) && CmdItems(v, AddArg(c, w)) == CmdItems(v, c) + WordItem(v, w)
  {
    match c
    case Exec(argv) =>
      assert ArgItems(argv + [w]) == ArgItems(argv) + [Arg(w)];
    case Redir(sub, _, _) =>
      AddArgItems(v, sub, w);
  }

  lemma {:induction false} RedirsItems(d: nat, v: View, s: string, c: Cmd<Span>, i: nat, r: Result)
    requires i <= |s| && r == Ran(d, s, RedirsAt(c, i)) && r.Ok?
    ensures Whole(d, v, s, r.cmd, r.next) == Whole(d, v, s, c, i) && (Simple(c) ==> Simple(r.cmd))
    decreases |s| - i
  {
    if Peek(s, i, "<>") {
      RedirsRound(3 + d, s, c, i);
      RestRedir(d, v, s, i);
      var t := GetToken(s, i);
      var f := GetToken(s, t.next);
      Joined(CmdItems(v, c), FileItem(v, t.tok, f), Rest(d, v, s, f.next));
      RedirsItems(d, v, s, Redir(c, Span(f.q, f.eq), KindOf(t.tok)), f.next, r);
    } else {
      RedirsDone(3 + d, s, c, i);
      RestSkip(d, v, s, i);
    }
  }

  lemma ArgItem(d: nat, v: View, s: string, c: Cmd<Span>, i: nat)
    requires i <= |s| && Simple(c) && GetToken(s, i).tok == 'a'
    ensures var t := GetToken(s, i);
            var c' := AddArg(c, Span(t.q, t.eq));
            i < t.next && Simple(c') && Whole(d, v, s, c', t.next) == Whole(d, v, s, c, i)
  {
    var t := GetToken(s, i);
    RestWord(d, v, s, i);
    AddArgItems(v, c, Span(t.q, t.eq));
    Joined(CmdItems(v, c), WordItem(v, Span(t.q, t.eq)), Rest(d, v, s, t.next));
  }

  lemma {:induction false} ArgsItems(d: nat, v: View, s: string, c: Cmd<Span>, argc: nat, i: nat, r: Result)
    requires i <= |s| && Simple(c) && r == Ran(d, s, ArgsAt(c, argc, i)) && r.Ok?
    ensures Whole(d, v, s, r.cmd, r.next) == Whole(d, v, s, c, i) && Simple(r.cmd)
    decreases |s| - i
  {
    var t := GetToken(s, i);
    if Peek(s, i, "|)&;") {
      ArgsDone(3 + d, s, c, argc, i);
      RestSkip(d, v, s, i);
    } else {
      ArgsRound(3 + d, s, c, argc, i);
      if t.tok == '\0' {
        RestEnd(d, v, s, i);
        RestEnd(d, v, s, t.next);
      } else {
        ArgItem(d, v, s, c, i);
        var q := Ran(d, s, RedirsAt(AddArg(c, Span(t.q, t.eq)), t.next));
        RedirsItems(d, v, s, AddArg(c, Span(t.q, t.eq)), t.next, q);
        ArgsItems(d, v, s, q.cmd, argc + 1, q.next, r);
      }
    }
  }

  lemma {:induction false} BacksItems(d: nat, v: View, s: string, c: Cmd<Span>, i: nat, r: (Cmd<Span>, nat))
    requires i <= |s| && r == Backs(s, c, i)
    ensures Whole(d, v, s, r.0, r.1) == Whole(d, v, s, c, i)
    decreases |s| - i
  {
    if Peek(s, i, "&") {
      RestOp(d, v, s, i, '&');
      var t := GetToken(s, i);
      Joined(CmdItems(v, c), [Operator('&')], Rest(d, v, s, t.next));
      BacksItems(d, v, s, Back(c), t.next, r);
    } else {
      RestSkip(d, v, s, i);
    }
  }

  lemma {:induction false} BlockItems(d: nat, v: View, s: string, i: nat, r: Result)
    requires i <= |s| && Peek(s, i, "(") && r == Ran(d, s, ExecAt(i)) && r.Ok?
    ensures Whole(d, v, s, r.cmd, r.next) == Rest(d, v, s, i)
    decreases |s| - i, 0
  {
    ExecOpen(3 + d, s, i);
    SkipTwice(s, i);
    RestParen(d, v, s, i);
    var q := Ran(d, s, LineAt(GetToken(s, i).next));
    LineItemsKept(d, v, s, GetToken(s, i).next, q);
    CloseRound(3 + d, s, q.cmd, q.next);
    RestParen(d, v, s, q.next);
    RedirsItems(d, v, s, q.cmd, GetToken(s, q.next).next, r);
  }

  lemma {:induction false} ExecItems(d: nat, v: View, s: string, i: nat, r: Result)
    requires i <= |s| && r == Ran(d, s, ExecAt(i)) && r.Ok?
    ensures Whole(d, v, s, r.cmd, r.next) == Rest(d, v, s, i)
    ensures !Peek(s, i, "(") ==> Simple(r.cmd)
    decreases |s| - i, 1
  {
    if Peek(s, i, "(") {
      BlockItems(d, v, s, i, r);
    } else {
      ExecSimple(3 + d, s, i);
      var c, j := Exec([]), SkipSpace(s, i);
      assert CmdItems(v, c) == [];
      Joined(Rest(d, v, s, i), [], []);
      RestSkip(d, v, s, i);
      var q := Ran(d, s, RedirsAt(c, j));
      RedirsItems(d, v, s, c, j, q);
      ArgsItems(d, v, s, q.cmd, 0, q.next, r);
    }
  }

  lemma {:induction false} PipeItems(d: nat, v: View, s: string, i: nat, r: Result)
    requires i <= |s| && r == Ran(d, s, PipeAt(i)) && r.Ok?
    ensures Whole(d, v, s, r.cmd, r.next) == Rest(d, v, s, i)
    decreases |s| - i, 2
  {
    PipeRound(3 + d, s, i);
    var l := Ran(d, s, ExecAt(i));
    ExecItems(d, v, s, i, l);
    if Peek(s, l.next, "|") {
      RestOp(d, v, s, l.next, '|');
      var q := Ran(d, s, PipeAt(GetToken(s, l.next).next));
      PipeItems(d, v, s, GetToken(s, l.next).next, q);
      Infix(CmdItems(v, l.cmd), Operator('|'), CmdItems(v, q.cmd), Rest(d, v, s, q.next));
    } else {
      RestSkip(d, v, s, l.next);
    }
  }

  lemma Infix(a: seq<Item>, op: Item, b: seq<Item>, rest: seq<Item>)
    ensures a + ([op] + b) + rest == a + ([op] + (b + rest))
  {
  }

  lemma {:induction false} LineItemsKept(d: nat, v: View, s: string, i: nat, r: Result)
    requires i <= |s| && r == Ran(d, s, LineAt(i)) && r.Ok?
    ensures Whole(d, v, s, r.cmd, r.next) == Rest(d, v, s, i)
    decreases |s| - i, 3
  {
    var p := Ran(d, s, PipeAt(i));
    if p.Err? {
      LinePanic(3 + d, s, i);
    }
    LineRound(3 + d, s, i);
    PipeItems(d, v, s, i, p);
    var b := Backs(s, p.cmd, p.next);
    BacksItems(d, v, s, p.cmd, p.next, b);
    if Peek(s, b.1, ";") {
      RestOp(d, v, s, b.1, ';');
      var q := Ran(d, s, LineAt(GetToken(s, b.1).next));
      LineItemsKept(d, v, s, GetToken(s, b.1).next, q);
      Infix(CmdItems(v, b.0), Operator(';'), CmdItems(v, q.cmd), Rest(d, v, s, q.next));
    } else {
      RestSkip(d, v, s, b.1);
    }
  }

  /** For every line that parses: read from left to right, the command has
      exactly the line's arguments and operators, in their order, and exactly
      its redirections and operators, in their order, wherever the redirections
      stand among the arguments. */
  lemma NothingLost(v: View, s: string)
    requires ParseCmd(s).Ok?
    ensures CmdItems(v, ParseCmd(s).cmd) == LineItems(v, s, 0)
  {
    var r := ParseLine(s, 0);
    OutcomeIs(3, s, LineAt(0));
    LineItemsKept(0, v, s, 0, r);
    RestEnd(0, v, s, r.next);
    RestIs(0, v, s, 0);
    Joined(CmdItems(v, r.cmd), [], []);
  }
}
