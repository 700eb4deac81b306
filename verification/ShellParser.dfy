/** The shell's tokenizer and recursive-descent parser as functions of the
    command line and a cursor into it. */
module ShellParser {

  const MAXARGS: nat := 10

  /** A word: the characters from q up to eq. */
  datatype Span = Span(q: nat, eq: nat)

  /** `<` (O_RDONLY on 0), `>` (O_WRONLY|O_CREATE|O_TRUNC on 1) and `>>`
      (O_WRONLY|O_CREATE on 1). */
  datatype Kind = In | Out | Append

  datatype Cmd<W> =
    | Exec(argv: seq<W>)
    | Redir(cmd: Cmd<W>, file: W, kind: Kind)
    | Pipe(left: Cmd<W>, right: Cmd<W>)
    | List(left: Cmd<W>, right: Cmd<W>)
    | Back(cmd: Cmd<W>)

  datatype Panic = MissingFile | NotABlock | MissingParen | Syntax | TooManyArgs | Leftovers

  datatype Result = Ok(cmd: Cmd<Span>, next: nat) | Err(why: Panic)

  /** tok is 'a' for a word, '+' for >>, NUL at the end, else the symbol. */
  datatype Token = Token(tok: char, q: nat, eq: nat, next: nat)

  predicate IsSpace(c: char) { c == ' ' || c == '\t' || c == '\r' || c == '\n' || c == '\U{000B}' }

  predicate IsSymbol(c: char) {
    c == '<' || c == '|' || c == '>' || c == '&' || c == ';' || c == '(' || c == ')'
  }

  predicate IsWordChar(c: char) { !IsSpace(c) && !IsSymbol(c) }

  /** The character at the cursor: NUL at the end of the line. */
  function At(s: string, i: nat): char { if i < |s| then s[i] else '\0' }

  function SkipSpace(s: string, i: nat): (r: nat)
    requires i <= |s|
    ensures i <= r <= |s| && (r < |s| ==> !IsSpace(s[r]))
    decreases |s| - i
  {
    if i < |s| && IsSpace(s[i]) then SkipSpace(s, i + 1) else i
  }

  function WordEnd(s: string, i: nat): (r: nat)
    requires i <= |s|
    ensures i <= r <= |s| && (i < |s| && IsWordChar(s[i]) ==> i < r)
    decreases |s| - i
  {
    if i < |s| && IsWordChar(s[i]) then WordEnd(s, i + 1) else i
  }

  /** q..eq is a whole word of s: it cannot be extended to the right. */
  ghost predicate IsWord(s: string, w: Span) {
    && w.q < w.eq <= |s| && (forall k :: w.q <= k < w.eq ==> IsWordChar(s[k]))
    && (w.eq == |s| || !IsWordChar(s[w.eq]))
  }

  function GetToken(s: string, i: nat): (t: Token)
    requires i <= |s|
    ensures i <= t.q <= t.eq <= t.next <= |s|
    ensures t.q < |s| ==> t.q < t.eq
    ensures t.q == |s| <==> t.tok == '\0'
  {
    var q := SkipSpace(s, i);
    if q == |s| then Token('\0', q, q, q)
    else if s[q] == '>' then
      if At(s, q + 1) == '>' then Token('+', q, q + 2, SkipSpace(s, q + 2))
      else Token('>', q, q + 1, SkipSpace(s, q + 1))
    else if IsSymbol(s[q]) then Token(s[q], q, q + 1, SkipSpace(s, q + 1))
    else
      var eq := WordEnd(s, q);
      Token('a', q, eq, SkipSpace(s, eq))
  }

  /** peek: does the next token start with one of toks? */
  predicate Peek(s: string, i: nat, toks: string)
    requires i <= |s|
  {
    var q := SkipSpace(s, i);
    q < |s| && s[q] in toks
  }

  /** The argument vector sits in the EXEC node inside the redirections. */
  function AddArg(c: Cmd<Span>, w: Span): Cmd<Span> {
    match c
    case Exec(argv) => Exec(argv + [w])
    case Redir(sub, file, kind) => Redir(AddArg(sub, w), file, kind)
    case _ => c
  }

  function KindOf(tok: char): Kind {
    if tok == '<' then In else if tok == '>' then Out else Append
  }

  function Redirs(s: string, c: Cmd<Span>, i: nat): (r: Result)
    requires i <= |s|
    ensures r.Ok? ==> i <= r.next <= |s|
    decreases |s| - i
  {
    if !Peek(s, i, "<>") then Ok(c, SkipSpace(s, i))
    else
      var t := GetToken(s, i);
      var f := GetToken(s, t.next);
      if f.tok != 'a' then Err(MissingFile)
      else Redirs(s, Redir(c, Span(f.q, f.eq), KindOf(t.tok)), f.next)
  }

  /** parseexec's loop with argc arguments so far. */
  function Args(s: string, c: Cmd<Span>, argc: nat, i: nat): (r: Result)
    requires i <= |s|
    ensures r.Ok? ==> i <= r.next <= |s|
    decreases |s| - i
  {
    if Peek(s, i, "|)&;") then Ok(c, SkipSpace(s, i))
    else
      var t := GetToken(s, i);
      if t.tok == '\0' then Ok(c, t.next)
      else if t.tok != 'a' then Err(Syntax)
      else if argc + 1 >= MAXARGS then Err(TooManyArgs)
      else
        var r := Redirs(s, AddArg(c, Span(t.q, t.eq)), t.next);
        if r.Err? then r else Args(s, r.cmd, argc + 1, r.next)
  }

  function ParseExec(s: string, i: nat): (r: Result)
    requires i <= |s|
    ensures r.Ok? ==> i <= r.next <= |s|
    decreases |s| - i, 1
  {
    if Peek(s, i, "(") then ParseBlock(s, i)
    else
      var r := Redirs(s, Exec([]), SkipSpace(s, i));
      if r.Err? then r else Args(s, r.cmd, 0, r.next)
  }

  function ParseBlock(s: string, i: nat): (r: Result)
    requires i <= |s|
    ensures r.Ok? ==> i <= r.next <= |s|
    decreases |s| - i, 0
  {
    if !Peek(s, i, "(") then Err(NotABlock) else CloseBlock(s, ParseLine(s, GetToken(s, i).next))
  }

  /** The rest of parseblock after the line inside the parentheses. */
  function CloseBlock(s: string, r: Result): (q: Result)
    requires r.Ok? ==> r.next <= |s|
    ensures q.Ok? ==> r.Ok? && r.next <= q.next <= |s|
  {
    if r.Err? then r
    else if !Peek(s, r.next, ")") then Err(MissingParen)
    else Redirs(s, r.cmd, GetToken(s, r.next).next)
  }

  function ParsePipe(s: string, i: nat): (r: Result)
    requires i <= |s|
    ensures r.Ok? ==> i <= r.next <= |s|
    decreases |s| - i, 2
  {
    var r := ParseExec(s, i);
    if r.Err? || !Peek(s, r.next, "|") then SkipResult(s, r)
    else
      var q := ParsePipe(s, GetToken(s, r.next).next);
      if q.Err? then q else Ok(Pipe(r.cmd, q.cmd), q.next)
  }

  /** A peek that fails still moves the cursor past white space. */
  function SkipResult(s: string, r: Result): Result
    requires r.Ok? ==> r.next <= |s|
  {
    if r.Ok? then Ok(r.cmd, SkipSpace(s, r.next)) else r
  }

  function Backs(s: string, c: Cmd<Span>, i: nat): (r: (Cmd<Span>, nat))
    requires i <= |s|
    ensures i <= r.1 <= |s|
    decreases |s| - i
  {
    if Peek(s, i, "&") then Backs(s, Back(c), GetToken(s, i).next) else (c, SkipSpace(s, i))
  }

  function ParseLine(s: string, i: nat): (r: Result)
    requires i <= |s|
    ensures r.Ok? ==> i <= r.next <= |s|
    decreases |s| - i, 3
  {
    var r := ParsePipe(s, i);
    if r.Err? then r
    else
      var b := Backs(s, r.cmd, r.next);
      if !Peek(s, b.1, ";") then Ok(b.0, SkipSpace(s, b.1))
      else
        var q := ParseLine(s, GetToken(s, b.1).next);
        if q.Err? then q else Ok(List(b.0, q.cmd), q.next)
  }

  function ParseCmd(s: string): Result
  {
    var r := ParseLine(s, 0);
    if r.Err? then r
    else if SkipSpace(s, r.next) != |s| then Err(Leftovers)
    else Ok(r.cmd, |s|)
  }

  // ----- parser calls as values -----

  // Parser calls whose outcome is carried through a proof are named by a value
  // and read through Outcome, which is recursive in a depth that proofs leave
  // open, so that a call is unfolded only where OutcomeIs says so.

  datatype Call =
    | ExecAt(i: nat) | PipeAt(i: nat) | LineAt(i: nat) | RedirsAt(c: Cmd<Span>, i: nat)
    | ArgsAt(c: Cmd<Span>, argc: nat, i: nat)
    | InMember(c: Cmd<Span>, argc: nat, block: bool, i: nat) | InLine(c: Cmd<Span>, i: nat)

  /** The parser inside a member of a pipeline: after a block it looks for
      redirections, after argc arguments for redirections and more arguments. */
  function MemberRest(s: string, c: Cmd<Span>, argc: nat, block: bool, i: nat): (r: Result)
    requires i <= |s|
    ensures r.Ok? ==> i <= r.next <= |s|
  {
    var r := Redirs(s, c, i);
    if block || r.Err? then r else Args(s, r.cmd, argc, r.next)
  }

  /** The parser after a pipeline of a line. */
  function LineRest(s: string, c: Cmd<Span>, i: nat): (r: Result)
    requires i <= |s|
    ensures r.Ok? ==> i <= r.next <= |s|
  {
    var b := Backs(s, c, i);
    if !Peek(s, b.1, ";") then Ok(b.0, SkipSpace(s, b.1))
    else
      var q := ParseLine(s, GetToken(s, b.1).next);
      if q.Err? then q else Ok(List(b.0, q.cmd), q.next)
  }

  ghost function Outcome(d: nat, s: string, call: Call): (r: Result)
    requires call.i <= |s|
    ensures r.Ok? ==> call.i <= r.next <= |s|
  {
    if d > 0 then Outcome(d - 1, s, call) else
    match call
    case ExecAt(i) => ParseExec(s, i)
    case PipeAt(i) => ParsePipe(s, i)
    case LineAt(i) => ParseLine(s, i)
    case RedirsAt(c, i) => Redirs(s, c, i)
    case ArgsAt(c, argc, i) => Args(s, c, argc, i)
    case InMember(c, argc, block, i) => MemberRest(s, c, argc, block, i)
    case InLine(c, i) => LineRest(s, c, i)
  }

  lemma {:induction false} OutcomeIs(d: nat, s: string, call: Call)
    requires call.i <= |s|
    ensures Outcome(d, s, call) == Outcome(0, s, call)
  {
    if d > 0 {
      OutcomeIs(d - 1, s, call);
    }
  }

  /** Outcome at a depth at which it does not unfold. */
  ghost function Ran(d: nat, s: string, call: Call): (r: Result)
    requires call.i <= |s|
    ensures r.Ok? ==> call.i <= r.next <= |s|
  {
    Outcome(3 + d, s, call)
  }

  lemma SkipTwice(s: string, i: nat)
    requires i <= |s|
    ensures SkipSpace(s, SkipSpace(s, i)) == SkipSpace(s, i) && GetToken(s, SkipSpace(s, i)) == GetToken(s, i)
  {
  }

  lemma RedirsDone(d: nat, s: string, c: Cmd<Span>, i: nat)
    requires i <= |s| && !Peek(s, i, "<>")
    ensures Outcome(d, s, RedirsAt(c, i)) == Ok(c, SkipSpace(s, i))
  {
    OutcomeIs(d, s, RedirsAt(c, i));
  }

  lemma RedirsRound(d: nat, s: string, c: Cmd<Span>, i: nat)
    requires i <= |s| && Peek(s, i, "<>")
    ensures i < GetToken(s, GetToken(s, i).next).next
    ensures var t := GetToken(s, i); var f := GetToken(s, t.next);
            Outcome(d, s, RedirsAt(c, i)) ==
            if f.tok != 'a' then Err(MissingFile)
            else Outcome(d, s, RedirsAt(Redir(c, Span(f.q, f.eq), KindOf(t.tok)), f.next))
  {
    OutcomeIs(d, s, RedirsAt(c, i));
    var t := GetToken(s, i);
    var f := GetToken(s, t.next);
    OutcomeIs(d, s, RedirsAt(Redir(c, Span(f.q, f.eq), KindOf(t.tok)), f.next));
  }

  lemma ArgsDone(d: nat, s: string, c: Cmd<Span>, argc: nat, i: nat)
    requires i <= |s| && Peek(s, i, "|)&;")
    ensures Outcome(d, s, ArgsAt(c, argc, i)) == Ok(c, SkipSpace(s, i))
  {
    OutcomeIs(d, s, ArgsAt(c, argc, i));
  }

  lemma ArgsRound(d: nat, s: string, c: Cmd<Span>, argc: nat, i: nat)
    requires i <= |s| && !Peek(s, i, "|)&;")
    ensures var t := GetToken(s, i); var r := Outcome(d, s, RedirsAt(AddArg(c, Span(t.q, t.eq)), t.next));
            Outcome(d, s, ArgsAt(c, argc, i)) ==
            if t.tok == '\0' then Ok(c, t.next)
            else if t.tok != 'a' then Err(Syntax)
            else if argc + 1 >= MAXARGS then Err(TooManyArgs)
            else if r.Err? then r else Outcome(d, s, ArgsAt(r.cmd, argc + 1, r.next))
  {
    OutcomeIs(d, s, ArgsAt(c, argc, i));
    var t := GetToken(s, i);
    var call := RedirsAt(AddArg(c, Span(t.q, t.eq)), t.next);
    OutcomeIs(d, s, call);
    var r := Outcome(d, s, call);
    if r.Ok? {
      OutcomeIs(d, s, ArgsAt(r.cmd, argc + 1, r.next));
    }
  }

  lemma ExecOpen(d: nat, s: string, i: nat)
    requires i <= |s| && Peek(s, i, "(")
    ensures Peek(s, SkipSpace(s, i), "(")
    ensures Outcome(d, s, ExecAt(i)) == CloseBlock(s, Outcome(d, s, LineAt(GetToken(s, SkipSpace(s, i)).next)))
  {
    SkipTwice(s, i);
    OutcomeIs(d, s, ExecAt(i));
    OutcomeIs(d, s, LineAt(GetToken(s, i).next));
    assert ParseExec(s, i) == ParseBlock(s, i);
  }

  lemma ExecSimple(d: nat, s: string, i: nat)
    requires i <= |s| && !Peek(s, i, "(")
    ensures var r := Outcome(d, s, RedirsAt(Exec([]), SkipSpace(s, i)));
            Outcome(d, s, ExecAt(i)) == if r.Err? then r else Outcome(d, s, ArgsAt(r.cmd, 0, r.next))
  {
    OutcomeIs(d, s, ExecAt(i));
    var call := RedirsAt(Exec([]), SkipSpace(s, i));
    OutcomeIs(d, s, call);
    var r := Outcome(d, s, call);
    if r.Ok? {
      OutcomeIs(d, s, ArgsAt(r.cmd, 0, r.next));
    }
  }

  lemma CloseRound(d: nat, s: string, c: Cmd<Span>, i: nat)
    requires i <= |s| && Peek(s, i, ")")
    ensures CloseBlock(s, Ok(c, i)) == Outcome(d, s, RedirsAt(c, GetToken(s, i).next))
  {
    OutcomeIs(d, s, RedirsAt(c, GetToken(s, i).next));
  }

  lemma PipeRound(d: nat, s: string, i: nat)
    requires i <= |s|
    ensures var r := Outcome(d, s, ExecAt(i));
            Outcome(d, s, PipeAt(i)) ==
            if r.Err? then r
            else if !Peek(s, r.next, "|") then Ok(r.cmd, SkipSpace(s, r.next))
            else
              var q := Outcome(d, s, PipeAt(GetToken(s, r.next).next));
              if q.Err? then q else Ok(Pipe(r.cmd, q.cmd), q.next)
  {
    OutcomeIs(d, s, PipeAt(i));
    OutcomeIs(d, s, ExecAt(i));
    var r := Outcome(d, s, ExecAt(i));
    if r.Ok? {
      OutcomeIs(d, s, PipeAt(GetToken(s, r.next).next));
    }
  }

  lemma LinePanic(d: nat, s: string, i: nat)
    requires i <= |s| && Outcome(d, s, PipeAt(i)).Err?
    ensures Outcome(d, s, LineAt(i)) == Outcome(d, s, PipeAt(i))
  {
    OutcomeIs(d, s, PipeAt(i));
    OutcomeIs(d, s, LineAt(i));
  }

  lemma LineRound(d: nat, s: string, i: nat)
    requires i <= |s| && Outcome(d, s, PipeAt(i)).Ok?
    ensures var r := Outcome(d, s, PipeAt(i)); var b := Backs(s, r.cmd, r.next);
            Outcome(d, s, LineAt(i)) ==
            if !Peek(s, b.1, ";") then Ok(b.0, SkipSpace(s, b.1))
            else
              var q := Outcome(d, s, LineAt(GetToken(s, b.1).next));
              if q.Err? then q else Ok(List(b.0, q.cmd), q.next)
  {
    OutcomeIs(d, s, PipeAt(i));
    OutcomeIs(d, s, LineAt(i));
    var r := Outcome(d, s, PipeAt(i));
    var b := Backs(s, r.cmd, r.next);
    OutcomeIs(d, s, LineAt(GetToken(s, b.1).next));
  }

  // ----- every word of a parsed command is a whole word of the line -----

  ghost predicate SpansOk(s: string, c: Cmd<Span>) {
    match c
    case Exec(argv) => forall k :: 0 <= k < |argv| ==> IsWord(s, argv[k])
    case Redir(sub, file, _) => SpansOk(s, sub) && IsWord(s, file)
    case Pipe(l, r) => SpansOk(s, l) && SpansOk(s, r)
    case List(l, r) => SpansOk(s, l) && SpansOk(s, r)
    case Back(sub) => SpansOk(s, sub)
  }

  lemma {:induction false} WordEndSpec(s: string, i: nat)
    requires i <= |s|
    ensures WordEnd(s, i) == |s| || !IsWordChar(s[WordEnd(s, i)])
    ensures forall k :: i <= k < WordEnd(s, i) ==> IsWordChar(s[k])
    decreases |s| - i
  {
    if i < |s| && IsWordChar(s[i]) {
      WordEndSpec(s, i + 1);
    }
  }

  lemma TokenIsWord(s: string, i: nat)
    requires i <= |s| && GetToken(s, i).tok == 'a'
    ensures IsWord(s, Span(GetToken(s, i).q, GetToken(s, i).eq))
  {
    WordEndSpec(s, SkipSpace(s, i));
  }

  lemma {:induction false} AddArgSpans(s: string, c: Cmd<Span>, w: Span)
    requires SpansOk(s, c) && IsWord(s, w)
    ensures SpansOk(s, AddArg(c, w))
  {
    if c.Redir? {
      AddArgSpans(s, c.cmd, w);
    }
  }

  lemma {:induction false} RedirsSpans(d: nat, s: string, c: Cmd<Span>, i: nat, r: Result)
    requires i <= |s| && SpansOk(s, c) && r == Ran(d, s, RedirsAt(c, i))
    ensures r.Ok? ==> SpansOk(s, r.cmd)
    decreases |s| - i
  {
    if Peek(s, i, "<>") {
      RedirsRound(3 + d, s, c, i);
      var t := GetToken(s, i);
      var f := GetToken(s, t.next);
      if f.tok == 'a' {
        TokenIsWord(s, t.next);
        RedirsSpans(d, s, Redir(c, Span(f.q, f.eq), KindOf(t.tok)), f.next, r);
      }
    } else {
      RedirsDone(3 + d, s, c, i);
    }
  }

  lemma {:induction false} ArgsSpans(d: nat, s: string, c: Cmd<Span>, argc: nat, i: nat, r: Result)
    requires i <= |s| && SpansOk(s, c) && r == Ran(d, s, ArgsAt(c, argc, i))
    ensures r.Ok? ==> SpansOk(s, r.cmd)
    decreases |s| - i
  {
    var t := GetToken(s, i);
    if Peek(s, i, "|)&;") {
      ArgsDone(3 + d, s, c, argc, i);
    } else {
      ArgsRound(3 + d, s, c, argc, i);
      if t.tok == 'a' && argc + 1 < MAXARGS {
        TokenIsWord(s, i);
        var c' := AddArg(c, Span(t.q, t.eq));
        AddArgSpans(s, c, Span(t.q, t.eq));
        var q := Ran(d, s, RedirsAt(c', t.next));
        RedirsSpans(d, s, c', t.next, q);
        if q.Ok? {
          ArgsSpans(d, s, q.cmd, argc + 1, q.next, r);
        }
      }
    }
  }

  lemma {:induction false} BacksSpans(s: string, c: Cmd<Span>, i: nat, r: (Cmd<Span>, nat))
    requires i <= |s| && SpansOk(s, c) && r == Backs(s, c, i)
    ensures SpansOk(s, r.0)
    decreases |s| - i
  {
    if Peek(s, i, "&") {
      BacksSpans(s, Back(c), GetToken(s, i).next, r);
    }
  }

  lemma {:induction false} BlockSpans(d: nat, s: string, i: nat, r: Result)
    requires i <= |s| && Peek(s, i, "(") && r == Ran(d, s, ExecAt(i))
    ensures r.Ok? ==> SpansOk(s, r.cmd)
    decreases |s| - i, 0
  {
    SkipTwice(s, i);
    ExecOpen(3 + d, s, i);
    var q := Ran(d, s, LineAt(GetToken(s, i).next));
    LineSpans(d, s, GetToken(s, i).next, q);
    if q.Ok? && Peek(s, q.next, ")") {
      CloseRound(3 + d, s, q.cmd, q.next);
      RedirsSpans(d, s, q.cmd, GetToken(s, q.next).next, r);
    }
  }

  lemma {:induction false} ExecSpans(d: nat, s: string, i: nat, r: Result)
    requires i <= |s| && r == Ran(d, s, ExecAt(i))
    ensures r.Ok? ==> SpansOk(s, r.cmd)
    decreases |s| - i, 1
  {
    if Peek(s, i, "(") {
      BlockSpans(d, s, i, r);
    } else {
      ExecSimple(3 + d, s, i);
      var q := Ran(d, s, RedirsAt(Exec([]), SkipSpace(s, i)));
      RedirsSpans(d, s, Exec([]), SkipSpace(s, i), q);
      if q.Ok? {
        ArgsSpans(d, s, q.cmd, 0, q.next, r);
      }
    }
  }

  lemma {:induction false} PipeSpans(d: nat, s: string, i: nat, r: Result)
    requires i <= |s| && r == Ran(d, s, PipeAt(i))
    ensures r.Ok? ==> SpansOk(s, r.cmd)
    decreases |s| - i, 2
  {
    PipeRound(3 + d, s, i);
    var q := Ran(d, s, ExecAt(i));
    ExecSpans(d, s, i, q);
    if q.Ok? && Peek(s, q.next, "|") {
      var j := GetToken(s, q.next).next;
      PipeSpans(d, s, j, Ran(d, s, PipeAt(j)));
    }
  }

  /** Every word of a parsed line is a whole word of the line. */
  lemma {:induction false} LineSpans(d: nat, s: string, i: nat, r: Result)
    requires i <= |s| && r == Ran(d, s, LineAt(i))
    ensures r.Ok? ==> SpansOk(s, r.cmd)
    decreases |s| - i, 3
  {
    var q := Ran(d, s, PipeAt(i));
    PipeSpans(d, s, i, q);
    if q.Err? {
      LinePanic(3 + d, s, i);
    } else {
      LineRound(3 + d, s, i);
      var b := Backs(s, q.cmd, q.next);
      BacksSpans(s, q.cmd, q.next, b);
      if Peek(s, b.1, ";") {
        var j := GetToken(s, b.1).next;
        LineSpans(d, s, j, Ran(d, s, LineAt(j)));
      }
    }
  }

  // ----- nulterminate -----

  predicate NoNul(s: string) { forall i :: 0 <= i < |s| ==> s[i] != '\0' }

  predicate HasWord(c: Cmd<Span>, w: Span) {
    match c
    case Exec(argv) => w in argv
    case Redir(sub, file, _) => w == file || HasWord(sub, w)
    case Pipe(l, r) => HasWord(l, w) || HasWord(r, w)
    case List(l, r) => HasWord(l, w) || HasWord(r, w)
    case Back(sub) => HasWord(sub, w)
  }

  /** The places nulterminate overwrites. */
  ghost predicate EndsAt(c: Cmd<Span>, k: nat) {
    exists w :: HasWord(c, w) && w.eq == k
  }

  /** buf after nulterminate(c): NUL at the end of every word, nothing else. */
  ghost predicate Terminated(buf: string, c: Cmd<Span>, buf': string) {
    && |buf'| == |buf|
    && forall k :: 0 <= k < |buf| ==> buf'[k] == if EndsAt(c, k) then '\0' else buf[k]
  }

  lemma {:induction false} HasWordIsWord(s: string, c: Cmd<Span>, w: Span)
    requires SpansOk(s, c) && HasWord(c, w)
    ensures IsWord(s, w)
  {
    match c
    case Exec(argv) =>
    case Redir(sub, file, _) =>
      if w != file {
        HasWordIsWord(s, sub, w);
      }
    case Pipe(l, r) =>
      HasWordIsWord(s, if HasWord(l, w) then l else r, w);
    case List(l, r) =>
      HasWordIsWord(s, if HasWord(l, w) then l else r, w);
    case Back(sub) =>
      HasWordIsWord(s, sub, w);
  }

  /** No NUL that nulterminate writes lands inside a word, so afterwards every
      word of the command is the C string that starts where it starts. */
  lemma WordsSurviveTermination(s: string, c: Cmd<Span>, buf': string, w: Span)
    requires NoNul(s) && ParseCmd(s).Ok? && c == ParseCmd(s).cmd && Terminated(s + "\0", c, buf') && HasWord(c, w)
    ensures w.q < w.eq < |buf'| && buf'[w.eq] == '\0'
    ensures forall k :: w.q <= k < w.eq ==> buf'[k] == s[k] && buf'[k] != '\0'
  {
    LineSpans(0, s, 0, Ran(0, s, LineAt(0)));
    OutcomeIs(3, s, LineAt(0));
    HasWordIsWord(s, c, w);
    assert EndsAt(c, w.eq);
    forall k | w.q <= k < w.eq ensures !EndsAt(c, k) {
      if EndsAt(c, k) {
        var v :| HasWord(c, v) && v.eq == k;
        HasWordIsWord(s, c, v);
      }
    }
  }
}
