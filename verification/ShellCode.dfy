/** The shell's tokenizer and parser on a cursor they advance, and nulterminate
    on the buffer it writes. */
module ShellCode {
  import P = ShellParser
  import opened ShellParser

  class Parser {
    const s: string
    var ps: nat
    ghost const depth: nat

    ghost predicate Valid()
      reads this
    {
      ps <= |s|
    }

    constructor (line: string)
      ensures s == line && ps == 0
    {
      s := line;
      ps := 0;
      depth := 0;
    }

    /** Skips white space from i on. */
    method Skip(from: nat) returns (i: nat)
      requires from <= |s|
      ensures i == SkipSpace(s, from)
    {
      i := from;
      while i < |s| && IsSpace(s[i])
        invariant i <= |s| && SkipSpace(s, i) == SkipSpace(s, from)
      {
        i := i + 1;
      }
    }

    method Gettoken() returns (ret: char, q: nat, eq: nat)
      requires Valid()
      modifies this`ps
      ensures Valid() && Token(ret, q, eq, ps) == GetToken(s, old(ps))
    {
      q := Skip(ps);
      var i := q;
      if i == |s| {
        ret := '\0';
      } else if s[i] == '>' {
        ret := '>';
        i := i + 1;
        if i < |s| && s[i] == '>' {
          ret := '+';
          i := i + 1;
        }
      } else if IsSymbol(s[i]) {
        ret := s[i];
        i := i + 1;
      } else {
        ret := 'a';
        while i < |s| && !IsSpace(s[i]) && !IsSymbol(s[i])
          invariant q <= i <= |s| && WordEnd(s, i) == WordEnd(s, q)
        {
          i := i + 1;
        }
      }
      eq := i;
      ps := Skip(i);
    }

    method PeekAt(toks: string) returns (b: bool)
      requires Valid()
      modifies this`ps
      ensures Valid() && ps == SkipSpace(s, old(ps)) && b == Peek(s, old(ps), toks)
      ensures b == Peek(s, ps, toks)
    {
      ps := Skip(ps);
      b := ps < |s| && s[ps] in toks;
    }

    /** parseredirs; a panic is a result. */
    method ParseRedirs(cmd: Cmd<Span>) returns (r: Result)
      requires Valid()
      modifies this`ps
      ensures Valid() && r == Outcome(depth, s, RedirsAt(cmd, old(ps))) && (r.Ok? ==> ps == r.next)
    {
      var c := cmd;
      ghost var i := ps;
      var more := PeekAt("<>");
      while more
        invariant i <= |s| && ps == SkipSpace(s, i) && more == Peek(s, i, "<>")
        invariant Outcome(depth, s, RedirsAt(cmd, old(ps))) == Outcome(depth, s, RedirsAt(c, i))
        decreases |s| - i
      {
        SkipTwice(s, i);
        RedirsRound(depth, s, c, i);
        var tok, _, _ := Gettoken();
        var f, q, eq := Gettoken();
        if f != 'a' {
          return Err(MissingFile);
        }
        match tok {
          case '<' => c := Redir(c, Span(q, eq), In);
          case '>' => c := Redir(c, Span(q, eq), Out);
          case _ => c := Redir(c, Span(q, eq), Append);
        }
        i := ps;
        more := PeekAt("<>");
      }
      RedirsDone(depth, s, c, i);
      return Ok(c, ps);
    }

    method ParseExecCmd() returns (r: Result)
      requires Valid()
      modifies this`ps
      ensures Valid() && r == Outcome(depth, s, ExecAt(old(ps))) && (r.Ok? ==> ps == r.next)
      decreases |s| - ps, 1
    {
      ghost var i := ps;
      var open := PeekAt("(");
      if open {
        ExecOpen(depth, s, i);
        r := ParseBlockCmd();
        return;
      }
      ExecSimple(depth, s, i);
      r := ParseRedirs(Exec([]));
      if r.Err? {
        return;
      }
      r := ParseArgs(r.cmd);
    }

    /** parseexec's loop over the words. */
    method ParseArgs(cmd: Cmd<Span>) returns (r: Result)
      requires Valid()
      modifies this`ps
      ensures Valid() && r == Outcome(depth, s, ArgsAt(cmd, 0, old(ps))) && (r.Ok? ==> ps == r.next)
    {
      var c, argc := cmd, 0;
      ghost var i := ps;
      var stop := PeekAt("|)&;");
      while !stop
        invariant i <= |s| && ps == SkipSpace(s, i) && stop == Peek(s, i, "|)&;") && argc >= 0
        invariant Outcome(depth, s, ArgsAt(cmd, 0, old(ps))) == Outcome(depth, s, ArgsAt(c, argc, i))
        decreases |s| - i
      {
        SkipTwice(s, i);
        ArgsRound(depth, s, c, argc, i);
        var tok, q, eq := Gettoken();
        if tok == '\0' {
          return Ok(c, ps);
        }
        if tok != 'a' {
          return Err(Syntax);
        }
        c := AddArg(c, Span(q, eq));
        argc := argc + 1;
        if argc >= MAXARGS {
          return Err(TooManyArgs);
        }
        r := ParseRedirs(c);
        if r.Err? {
          return;
        }
        c := r.cmd;
        i := ps;
        stop := PeekAt("|)&;");
      }
      ArgsDone(depth, s, c, argc, i);
      return Ok(c, ps);
    }

    method ParseBlockCmd() returns (r: Result)
      requires Valid()
      modifies this`ps
      ensures Valid() && (r.Ok? ==> ps == r.next)
      ensures r == if Peek(s, old(ps), "(") then CloseBlock(s, Outcome(depth, s, LineAt(GetToken(s, old(ps)).next)))
                   else Err(NotABlock)
      decreases |s| - ps, 0
    {
      SkipTwice(s, ps);
      var open := PeekAt("(");
      if !open {
        return Err(NotABlock);
      }
      var _, _, _ := Gettoken();
      r := ParseLineCmd();
      if r.Err? {
        return;
      }
      ghost var i := ps;
      var close := PeekAt(")");
      if !close {
        return Err(MissingParen);
      }
      SkipTwice(s, i);
      var _, _, _ := Gettoken();
      CloseRound(depth, s, r.cmd, i);
      r := ParseRedirs(r.cmd);
    }

    method ParsePipeCmd() returns (r: Result)
      requires Valid()
      modifies this`ps
      ensures Valid() && r == Outcome(depth, s, PipeAt(old(ps))) && (r.Ok? ==> ps == r.next)
      decreases |s| - ps, 2
    {
      r := ParseExecCmd();
      PipeRound(depth, s, old(ps));
      if r.Err? {
        return;
      }
      var c := r.cmd;
      SkipTwice(s, ps);
      var bar := PeekAt("|");
      if bar {
        var _, _, _ := Gettoken();
        r := ParsePipeCmd();
        if r.Err? {
          return;
        }
        c := Pipe(c, r.cmd);
      }
      return Ok(c, ps);
    }

    method ParseLineCmd() returns (r: Result)
      requires Valid()
      modifies this`ps
      ensures Valid() && r == Outcome(depth, s, LineAt(old(ps))) && (r.Ok? ==> ps == r.next)
      decreases |s| - ps, 3
    {
      r := ParsePipeCmd();
      if r.Err? {
        LinePanic(depth, s, old(ps));
        return;
      }
      var c := r.cmd;
      ghost var i, b := ps, Backs(s, c, ps);
      var amp := PeekAt("&");
      while amp
        invariant old(ps) <= i <= |s| && ps == SkipSpace(s, i) && amp == Peek(s, i, "&") && Backs(s, c, i) == b
        decreases |s| - i
      {
        SkipTwice(s, i);
        var _, _, _ := Gettoken();
        c := Back(c);
        i := ps;
        amp := PeekAt("&");
      }
      LineRound(depth, s, old(ps));
      SkipTwice(s, i);
      SkipTwice(s, ps);
      var semi := PeekAt(";");
      if semi {
        var _, _, _ := Gettoken();
        r := ParseLineCmd();
        if r.Err? {
          return;
        }
        c := List(c, r.cmd);
      }
      return Ok(c, ps);
    }

    /** parsecmd, without nulterminate. */
    method ParseCommand() returns (r: Result)
      requires ps == 0
      modifies this`ps
      ensures r == ParseCmd(s)
    {
      r := ParseLineCmd();
      OutcomeIs(depth, s, LineAt(0));
      if r.Err? {
        return;
      }
      var c := r.cmd;
      var _ := PeekAt("");
      if ps != |s| {
        return Err(Leftovers);
      }
      return Ok(c, ps);
    }
  }

  /** Every word of c ends inside a buffer of n characters. */
  ghost predicate Inside(c: Cmd<Span>, n: nat) {
    forall w :: HasWord(c, w) ==> w.eq < n
  }

  /** nulterminate's recursion over the command. */
  method Nulterminate(buf: array<char>, c: Cmd<Span>)
    requires Inside(c, buf.Length)
    modifies buf
    ensures Terminated(old(buf[..]), c, buf[..])
    decreases c
  {
    match c
    case Exec(argv) =>
      EndWords(buf, argv);
    case Redir(sub, file, _) =>
      assert forall w :: HasWord(sub, w) ==> HasWord(c, w);
      assert HasWord(c, file);
      Nulterminate(buf, sub);
      buf[file.eq] := '\0';
      assert forall k: nat :: EndsAt(c, k) <==> EndsAt(sub, k) || k == file.eq by {
        EndsRedir(c);
      }
    case Pipe(l, r) =>
      NulterminateBoth(buf, l, r, c);
    case List(l, r) =>
      NulterminateBoth(buf, l, r, c);
    case Back(sub) =>
      assert forall w :: HasWord(sub, w) ==> HasWord(c, w);
      Nulterminate(buf, sub);
      assert forall k: nat :: EndsAt(c, k) <==> EndsAt(sub, k);
  }

  method NulterminateBoth(buf: array<char>, l: Cmd<Span>, r: Cmd<Span>, ghost c: Cmd<Span>)
    requires Inside(c, buf.Length) && (c == Pipe(l, r) || c == List(l, r))
    modifies buf
    ensures Terminated(old(buf[..]), c, buf[..])
    decreases c, 0
  {
    assert forall w :: HasWord(l, w) || HasWord(r, w) ==> HasWord(c, w);
    Nulterminate(buf, l);
    Nulterminate(buf, r);
    EndsBoth(c, l, r);
  }

  method EndWords(buf: array<char>, argv: seq<Span>)
    requires Inside(Exec(argv), buf.Length)
    modifies buf
    ensures Terminated(old(buf[..]), Exec(argv), buf[..])
  {
    ghost var was := buf[..];
    for i := 0 to |argv|
      invariant Terminated(was, Exec(argv[..i]), buf[..])
    {
      assert HasWord(Exec(argv), argv[i]);
      buf[argv[i].eq] := '\0';
      EndsOneMore(argv, i);
    }
    assert argv[..|argv|] == argv;
  }

  lemma EndsOneMore(argv: seq<Span>, i: nat)
    requires i < |argv|
    ensures forall k: nat :: EndsAt(Exec(argv[..i + 1]), k) <==> EndsAt(Exec(argv[..i]), k) || k == argv[i].eq
  {
    assert argv[..i + 1] == argv[..i] + [argv[i]];
    assert HasWord(Exec(argv[..i + 1]), argv[i]);
    forall k: nat ensures EndsAt(Exec(argv[..i + 1]), k) <==> EndsAt(Exec(argv[..i]), k) || k == argv[i].eq {
      if EndsAt(Exec(argv[..i]), k) {
        var w :| HasWord(Exec(argv[..i]), w) && w.eq == k;
        assert HasWord(Exec(argv[..i + 1]), w);
      }
      if EndsAt(Exec(argv[..i + 1]), k) {
        var w :| HasWord(Exec(argv[..i + 1]), w) && w.eq == k;
        assert w == argv[i] || HasWord(Exec(argv[..i]), w);
      }
    }
  }

  lemma EndsRedir(c: Cmd<Span>)
    requires c.Redir?
    ensures forall k: nat :: EndsAt(c, k) <==> EndsAt(c.cmd, k) || k == c.file.eq
  {
    assert HasWord(c, c.file);
    forall k: nat ensures EndsAt(c, k) <==> EndsAt(c.cmd, k) || k == c.file.eq {
      if EndsAt(c.cmd, k) {
        var w :| HasWord(c.cmd, w) && w.eq == k;
        assert HasWord(c, w);
      }
    }
  }

  lemma EndsBoth(c: Cmd<Span>, l: Cmd<Span>, r: Cmd<Span>)
    requires c == Pipe(l, r) || c == List(l, r)
    ensures forall k: nat :: EndsAt(c, k) <==> EndsAt(l, k) || EndsAt(r, k)
  {
    forall k: nat ensures EndsAt(c, k) <==> EndsAt(l, k) || EndsAt(r, k) {
      if EndsAt(l, k) {
        var w :| HasWord(l, w) && w.eq == k;
        assert HasWord(c, w);
      }
      if EndsAt(r, k) {
        var w :| HasWord(r, w) && w.eq == k;
        assert HasWord(c, w);
      }
    }
  }

  /** parsecmd on a C string: afterwards every word of the command is a C string
      of its own in the same buffer; a syntax error leaves the buffer alone. */
  method Parsecmd(buf: array<char>) returns (r: Result)
    requires buf.Length > 0 && buf[buf.Length - 1] == '\0' && NoNul(buf[..buf.Length - 1])
    modifies buf
    ensures r == ParseCmd(old(buf[..buf.Length - 1]))
    ensures r.Err? ==> buf[..] == old(buf[..])
    ensures r.Ok? ==> forall w :: HasWord(r.cmd, w) ==> w.q < w.eq < buf.Length && buf[w.eq] == '\0'
    ensures r.Ok? ==> forall w, k :: HasWord(r.cmd, w) && w.q <= k < w.eq < buf.Length ==> buf[k] == old(buf[k]) != '\0'
  {
    ghost var was := buf[..];
    var line := buf[..buf.Length - 1];
    assert was == line + "\0";
    var p := new Parser(line);
    r := p.ParseCommand();
    if r.Ok? {
      forall w | HasWord(r.cmd, w) ensures w.eq < buf.Length {
        LineSpans(0, line, 0, Ran(0, line, LineAt(0)));
        OutcomeIs(3, line, LineAt(0));
        HasWordIsWord(line, r.cmd, w);
      }
      Nulterminate(buf, r.cmd);
      forall w | HasWord(r.cmd, w)
        ensures w.q < w.eq < buf.Length && buf[w.eq] == '\0'
        ensures forall k :: w.q <= k < w.eq ==> buf[k] == was[k] != '\0'
      {
        WordsSurviveTermination(line, r.cmd, buf[..], w);
      }
    }
  }
}
