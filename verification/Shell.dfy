/** The shell's parser: sh.c.

    The grammar is given on token lists. The recursive descent over a cursor is proved to
    follow it, and the grammar is proved to undo a printing of command trees.
 */
module Shell {

  const MAXARGS: nat := 10
  const O_RDONLY: nat := 0
  const O_WRITE_CREATE: nat := 0x201   // O_WRONLY | O_CREATE

  /** Where a word stands in the line: from b up to, not including, e. */
  datatype Span = Span(b: nat, e: nat)

  datatype Target<W> = Target(file: W, mode: nat, fd: nat)

  /** A command tree over words W: spans of the line, or their text. */
  datatype Cmd<W> =
    | Exec(args: seq<W>)
    | Redir(cmd: Cmd<W>, to: Target<W>)
    | Pipe(left: Cmd<W>, right: Cmd<W>)
    | List(left: Cmd<W>, right: Cmd<W>)
    | Back(cmd: Cmd<W>)

  /** A token: a word, or a symbol, with '+' for ">>". */
  datatype Tok<W> = Word(w: W) | Sym(c: char)

  datatype Res<W> = Ok(cmd: Cmd<W>, rest: seq<Tok<W>>) | Err
  datatype Targets<W> = Found(to: seq<Target<W>>, rest: seq<Tok<W>>) | Missing

  // ---- the grammar ----

  predicate Is<W(==)>(ts: seq<Tok<W>>, c: char) {
    ts != [] && ts[0] == Sym(c)
  }

  /** The redirection a symbol stands for; ">>" opens its file as ">" does. */
  function To<W>(c: char, file: W): Target<W> {
    if c == '<' then Target(file, O_RDONLY, 0) else Target(file, O_WRITE_CREATE, 1)
  }

  predicate Redirects<W(==)>(ts: seq<Tok<W>>) {
    Is(ts, '<') || Is(ts, '>') || Is(ts, '+')
  }

  function Redirs<W(==)>(ts: seq<Tok<W>>): (r: Targets<W>)
    ensures r.Found? ==> |r.rest| <= |ts|
  {
    if !Redirects(ts) then Found([], ts)
    else if |ts| < 2 || !ts[1].Word? then Missing
    else
      match Redirs(ts[2..])
      case Found(to, rest) => Found([To(ts[0].c, ts[1].w)] + to, rest)
      case Missing => Missing
  }

  /** A command inside its redirections, the first one innermost. */
  function Wrap<W>(c: Cmd<W>, to: seq<Target<W>>): Cmd<W>
    decreases |to|
  {
    if to == [] then c else Wrap(Redir(c, to[0]), to[1..])
  }

  function Wrapped<W>(c: Cmd<W>, r: Targets<W>): Res<W> {
    match r
    case Found(to, rest) => Ok(Wrap(c, to), rest)
    case Missing => Err
  }

  predicate EndsExec<W(==)>(ts: seq<Tok<W>>) {
    ts == [] || Is(ts, '|') || Is(ts, ')') || Is(ts, '&') || Is(ts, ';')
  }

  /** Words and redirections in any order, after `args` and `to`. */
  function Args<W(==)>(args: seq<W>, to: seq<Target<W>>, ts: seq<Tok<W>>): (r: Res<W>)
    ensures r.Ok? ==> |r.rest| <= |ts|
    decreases |ts|
  {
    if EndsExec(ts) then Ok(Wrap(Exec(args), to), ts)
    else if !ts[0].Word? || |args| + 1 >= MAXARGS then Err
    else
      match Redirs(ts[1..])
      case Found(more, rest) => Args(args + [ts[0].w], to + more, rest)
      case Missing => Err
  }

  function ExecOf<W(==)>(ts: seq<Tok<W>>): (r: Res<W>)
    ensures r.Ok? ==> |r.rest| <= |ts|
    decreases |ts|, 1
  {
    if Is(ts, '(') then BlockOf(ts)
    else
      match Redirs(ts)
      case Found(to, rest) => Args([], to, rest)
      case Missing => Err
  }

  function PipeOf<W(==)>(ts: seq<Tok<W>>): (r: Res<W>)
    ensures r.Ok? ==> |r.rest| <= |ts|
    decreases |ts|, 2
  {
    match ExecOf(ts)
    case Err => Err
    case Ok(c, rest) =>
      if !Is(rest, '|') then Ok(c, rest)
      else
        match PipeOf(rest[1..])
        case Ok(right, after) => Ok(Pipe(c, right), after)
        case Err => Err
  }

  /** After a pipeline: any number of "&", then perhaps ";" and another line. */
  function TailOf<W(==)>(c: Cmd<W>, ts: seq<Tok<W>>): (r: Res<W>)
    ensures r.Ok? ==> |r.rest| <= |ts|
    decreases |ts|, 3
  {
    if Is(ts, '&') then TailOf(Back(c), ts[1..])
    else if Is(ts, ';') then
      match LineOf(ts[1..])
      case Ok(right, after) => Ok(List(c, right), after)
      case Err => Err
    else Ok(c, ts)
  }

  function LineOf<W(==)>(ts: seq<Tok<W>>): (r: Res<W>)
    ensures r.Ok? ==> |r.rest| <= |ts|
    decreases |ts|, 4
  {
    match PipeOf(ts)
    case Ok(c, rest) => TailOf(c, rest)
    case Err => Err
  }

  function BlockOf<W(==)>(ts: seq<Tok<W>>): (r: Res<W>)
    requires Is(ts, '(')
    ensures r.Ok? ==> |r.rest| <= |ts|
    decreases |ts|, 0
  {
    match LineOf(ts[1..])
    case Err => Err
    case Ok(c, rest) =>
      if !Is(rest, ')') then Err else Wrapped(c, Redirs(rest[1..]))
  }

  // ---- printing ----

  predicate White(c: char) {
    c in " \t\r\n\U{0B}"
  }

  predicate Symbol(c: char) {
    c in "<|>&;()"
  }

  /** Characters that end a word. */
  predicate Special(c: char) {
    White(c) || Symbol(c) || c == '\0'
  }

  predicate IsWord(w: string) {
    w != "" && forall i :: 0 <= i < |w| ==> !Special(w[i])
  }

  predicate TargetOk<W>(t: Target<W>) {
    (t.mode == O_RDONLY && t.fd == 0) || (t.mode == O_WRITE_CREATE && t.fd == 1)
  }

  /** Fewer than MAXARGS words in a command, and redirections that the shell has. */
  predicate Shaped<W>(t: Cmd<W>) {
    match t
    case Exec(args) => |args| < MAXARGS
    case Redir(c, to) => Shaped(c) && TargetOk(to)
    case Pipe(l, r) => Shaped(l) && Shaped(r)
    case List(l, r) => Shaped(l) && Shaped(r)
    case Back(c) => Shaped(c)
  }

  /** The words of a tree. */
  function WordsIn<W>(t: Cmd<W>): multiset<W> {
    match t
    case Exec(args) => multiset(args)
    case Redir(c, to) => WordsIn(c) + multiset{to.file}
    case Pipe(l, r) => WordsIn(l) + WordsIn(r)
    case List(l, r) => WordsIn(l) + WordsIn(r)
    case Back(c) => WordsIn(c)
  }

  /** The trees the shell can run. */
  ghost predicate WellFormed(t: Cmd<string>) {
    Shaped(t) && forall w :: w in WordsIn(t) ==> IsWord(w)
  }

  function Words(ws: seq<string>): seq<Tok<string>> {
    if ws == [] then [] else [Word(ws[0])] + Words(ws[1..])
  }

  function Paren(ts: seq<Tok<string>>): seq<Tok<string>> {
    [Sym('(')] + ts + [Sym(')')]
  }

  function Show(t: Cmd<string>): seq<Tok<string>> {
    match t
    case Exec(args) => Words(args)
    case Redir(c, to) => Paren(Show(c)) + [Sym(if to.mode == O_RDONLY then '<' else '>'), Word(to.file)]
    case Pipe(l, r) => Paren(Show(l)) + [Sym('|')] + Paren(Show(r))
    case List(l, r) => Paren(Show(l)) + [Sym(';')] + Paren(Show(r))
    case Back(c) => Paren(Show(c)) + [Sym('&')]
  }

  // ---- the grammar undoes printing ----

  predicate Closes<W(==)>(ts: seq<Tok<W>>) {
    ts == [] || Is(ts, ')')
  }

  lemma NoRedirs(ws: seq<string>, rest: seq<Tok<string>>)
    requires Closes(rest)
    ensures Redirs(Words(ws) + rest) == Found([], Words(ws) + rest) && !Is(Words(ws) + rest, '(')
  {
    var ts := Words(ws) + rest;
    if ws == [] {
      assert ts == rest;
    } else {
      assert ts[0] == Word(ws[0]);
    }
  }

  lemma {:induction false} WordsParse(args: seq<string>, ws: seq<string>, rest: seq<Tok<string>>)
    requires |args| + |ws| < MAXARGS && Closes(rest)
    ensures Args(args, [], Words(ws) + rest) == Ok(Exec(args + ws), rest)
    decreases |ws|
  {
    hide Redirs;
    var ts := Words(ws) + rest;
    if ws == [] {
      assert ts == rest && args + ws == args;
    } else {
      assert ts[0] == Word(ws[0]) && ts[1..] == Words(ws[1..]) + rest;
      NoRedirs(ws[1..], rest);
      var none: seq<Target<string>> := [];
      assert none + none == none;
      WordsParse(args + [ws[0]], ws[1..], rest);
      assert args + [ws[0]] + ws[1..] == args + ws;
    }
  }

  /** A parenthesised command, then redirections. */
  lemma BlockParses(t: Cmd<string>, shown: seq<Tok<string>>, tail: seq<Tok<string>>)
    requires LineOf(shown + [Sym(')')] + tail) == Ok(t, [Sym(')')] + tail)
    ensures ExecOf(Paren(shown) + tail) == Wrapped(t, Redirs(tail))
  {
    var ts := Paren(shown) + tail;
    assert ts[1..] == shown + [Sym(')')] + tail;
    assert ([Sym(')')] + tail)[1..] == tail;
  }

  /** A parenthesised command where no redirection follows. */
  lemma PlainBlock(t: Cmd<string>, shown: seq<Tok<string>>, tail: seq<Tok<string>>)
    requires LineOf(shown + [Sym(')')] + tail) == Ok(t, [Sym(')')] + tail) && !Redirects(tail)
    ensures ExecOf(Paren(shown) + tail) == Ok(t, tail)
  {
    BlockParses(t, shown, tail);
  }

  /** One command, and nothing after it. */
  lemma Alone<W>(ts: seq<Tok<W>>, c: Cmd<W>, rest: seq<Tok<W>>)
    requires ExecOf(ts) == Ok(c, rest) && Closes(rest)
    ensures PipeOf(ts) == Ok(c, rest) && LineOf(ts) == Ok(c, rest)
  {
    hide ExecOf;
  }

  lemma Piped<W>(ts: seq<Tok<W>>, c: Cmd<W>, r: Cmd<W>, more: seq<Tok<W>>, rest: seq<Tok<W>>)
    requires ExecOf(ts) == Ok(c, [Sym('|')] + more) && PipeOf(more) == Ok(r, rest) && Closes(rest)
    ensures LineOf(ts) == Ok(Pipe(c, r), rest)
  {
    hide ExecOf;
    assert ([Sym('|')] + more)[1..] == more;
    assert PipeOf(ts) == Ok(Pipe(c, r), rest);
  }

  lemma Listed<W>(ts: seq<Tok<W>>, c: Cmd<W>, r: Cmd<W>, more: seq<Tok<W>>, rest: seq<Tok<W>>)
    requires ExecOf(ts) == Ok(c, [Sym(';')] + more) && LineOf(more) == Ok(r, rest)
    ensures LineOf(ts) == Ok(List(c, r), rest)
  {
    hide ExecOf;
    assert ([Sym(';')] + more)[1..] == more;
    assert PipeOf(ts) == Ok(c, [Sym(';')] + more);
  }

  lemma Backed<W>(ts: seq<Tok<W>>, c: Cmd<W>, rest: seq<Tok<W>>)
    requires ExecOf(ts) == Ok(c, [Sym('&')] + rest) && Closes(rest)
    ensures LineOf(ts) == Ok(Back(c), rest)
  {
    hide ExecOf;
    assert ([Sym('&')] + rest)[1..] == rest;
    assert PipeOf(ts) == Ok(c, [Sym('&')] + rest);
    assert TailOf(Back(c), rest) == Ok(Back(c), rest);
  }

  lemma OneTarget(to: Target<string>, rest: seq<Tok<string>>)
    requires TargetOk(to) && Closes(rest)
    ensures Redirs([Sym(if to.mode == O_RDONLY then '<' else '>'), Word(to.file)] + rest) == Found([to], rest)
  {
    var tail := [Sym(if to.mode == O_RDONLY then '<' else '>'), Word(to.file)] + rest;
    assert tail[2..] == rest;
    assert Redirs(rest) == Found([], rest);
  }

  lemma Reassoc<T>(a: seq<T>, b: seq<T>, c: seq<T>)
    ensures a + (b + c) == a + b + c
  {
  }

  lemma ExecParses(args: seq<string>, rest: seq<Tok<string>>)
    requires |args| < MAXARGS && Closes(rest)
    ensures LineOf(Words(args) + rest) == Ok(Exec(args), rest)
  {
    hide LineOf, PipeOf, Args, Redirs;
    var ts := Words(args) + rest;
    NoRedirs(args, rest);
    WordsParse([], args, rest);
    assert [] + args == args;
    Alone(ts, Exec(args), rest);
  }

  /** Parsing a printed tree, up to what closes it, gives the tree back. */
  lemma {:induction false} ShowParses(t: Cmd<string>, rest: seq<Tok<string>>)
    requires Shaped(t) && Closes(rest)
    ensures LineOf(Show(t) + rest) == Ok(t, rest)
    decreases t, 1
  {
    hide LineOf, PipeOf, ExecOf, Redirs, Paren;
    match t
    case Exec(args) =>
      ExecParses(args, rest);
    case Redir(c, to) =>
      var tail := [Sym(if to.mode == O_RDONLY then '<' else '>'), Word(to.file)] + rest;
      ShowParses(c, [Sym(')')] + tail);
      Reassoc(Show(c), [Sym(')')], tail);
      BlockParses(c, Show(c), tail);
      OneTarget(to, rest);
      assert Show(t) + rest == Paren(Show(c)) + tail;
      assert Wrap(c, [to]) == Wrap(t, []);
      Alone(Show(t) + rest, t, rest);
    case Pipe(l, r) =>
      ShowsTwo(t, '|', rest);
      Piped(Show(t) + rest, l, r, Paren(Show(r)) + rest, rest);
    case List(l, r) =>
      ShowsTwo(t, ';', rest);
      Listed(Show(t) + rest, l, r, Paren(Show(r)) + rest, rest);
    case Back(c) =>
      var tail := [Sym('&')] + rest;
      ShowParses(c, [Sym(')')] + tail);
      Reassoc(Show(c), [Sym(')')], tail);
      PlainBlock(c, Show(c), tail);
      assert Show(t) + rest == Paren(Show(c)) + tail;
      Backed(Show(t) + rest, c, rest);
  }

  /** Two parenthesised commands with a symbol between them. */
  lemma {:induction false} ShowsTwo(t: Cmd<string>, op: char, rest: seq<Tok<string>>)
    requires Shaped(t) && (t.Pipe? || t.List?) && Closes(rest) && (op == '|' || op == ';')
    ensures ExecOf(Paren(Show(t.left)) + [Sym(op)] + Paren(Show(t.right)) + rest) ==
            Ok(t.left, [Sym(op)] + (Paren(Show(t.right)) + rest))
    ensures PipeOf(Paren(Show(t.right)) + rest) == Ok(t.right, rest)
    ensures LineOf(Paren(Show(t.right)) + rest) == Ok(t.right, rest)
    decreases t, 0
  {
    hide LineOf, PipeOf, ExecOf, Redirs, Paren, Show;
    var l, r := t.left, t.right;
    var more := Paren(Show(r)) + rest;
    var tail := [Sym(op)] + more;
    ShowParses(l, [Sym(')')] + tail);
    Reassoc(Show(l), [Sym(')')], tail);
    PlainBlock(l, Show(l), tail);
    assert Paren(Show(l)) + [Sym(op)] + Paren(Show(r)) + rest == Paren(Show(l)) + tail;
    ShowParses(r, [Sym(')')] + rest);
    Reassoc(Show(r), [Sym(')')], rest);
    PlainBlock(r, Show(r), rest);
    Alone(more, r, rest);
  }

  // ---- words and redirections in any order ----

  /** A word of a command, or a redirection: "<", ">" or ">>", and a file. */
  datatype Item = Arg(w: string) | Into(c: char, file: string)

  predicate ItemOk(i: Item) {
    i.Into? ==> i.c in "<>+"
  }

  function ItemTok(i: Item): seq<Tok<string>> {
    match i
    case Arg(w) => [Word(w)]
    case Into(c, f) => [Sym(c), Word(f)]
  }

  function ItemToks(items: seq<Item>): seq<Tok<string>> {
    if items == [] then [] else ItemTok(items[0]) + ItemToks(items[1..])
  }

  function ArgsIn(items: seq<Item>): seq<string> {
    if items == [] then [] else (if items[0].Arg? then [items[0].w] else []) + ArgsIn(items[1..])
  }

  /** "<" reads the file on descriptor 0; ">" and ">>" write and create it, on descriptor 1. */
  function TargetIn(i: Item): seq<Target<string>> {
    match i
    case Arg(_) => []
    case Into(c, f) => [if c == '<' then Target(f, 0, 0) else Target(f, 0x201, 1)]
  }

  function TargetsIn(items: seq<Item>): seq<Target<string>> {
    if items == [] then [] else TargetIn(items[0]) + TargetsIn(items[1..])
  }

  lemma RedirHead(i: Item, more: seq<Tok<string>>, to: seq<Target<string>>, rest: seq<Tok<string>>)
    requires i.Into? && ItemOk(i) && Redirs(more) == Found(to, rest)
    ensures Redirs(ItemTok(i) + more) == Found(TargetIn(i) + to, rest)
  {
    var ts := ItemTok(i) + more;
    assert ts[0] == Sym(i.c) && ts[1] == Word(i.file) && ts[2..] == more;
  }

  lemma WordHead(args: seq<string>, to: seq<Target<string>>, w: string, ts: seq<Tok<string>>,
                 more: seq<Target<string>>, rest: seq<Tok<string>>)
    requires |args| + 1 < MAXARGS && Redirs(ts) == Found(more, rest)
    ensures Args(args, to, [Word(w)] + ts) == Args(args + [w], to + more, rest)
  {
    assert ([Word(w)] + ts)[1..] == ts;
  }

  lemma ItemsCons(items: seq<Item>, rest: seq<Tok<string>>)
    requires items != []
    ensures ItemToks(items) + rest == ItemTok(items[0]) + (ItemToks(items[1..]) + rest)
  {
  }

  lemma NoRedirAt(rest: seq<Tok<string>>)
    requires EndsExec(rest)
    ensures Redirs(rest) == Found([], rest)
  {
  }

  lemma NoRedirWord(i: Item, more: seq<Tok<string>>)
    requires i.Arg?
    ensures Redirs(ItemTok(i) + more) == Found([], ItemTok(i) + more)
    ensures TargetIn(i) == []
  {
    assert (ItemTok(i) + more)[0] == Word(i.w);
  }

  /** The redirections at the head of the items are those that parseredirs takes. */
  lemma {:induction false} LeadingRedirs(items: seq<Item>, rest: seq<Tok<string>>) returns (k: nat)
    requires (forall i :: 0 <= i < |items| ==> ItemOk(items[i])) && EndsExec(rest)
    ensures k <= |items| && (k < |items| ==> items[k].Arg?) && ArgsIn(items[k..]) == ArgsIn(items)
    ensures TargetsIn(items) == TargetsIn(items[..k]) + TargetsIn(items[k..])
    ensures Redirs(ItemToks(items) + rest) == Found(TargetsIn(items[..k]), ItemToks(items[k..]) + rest)
  {
    hide Redirs, ItemTok, TargetIn;
    if items == [] {
      k := 0;
      assert ItemToks(items) + rest == rest;
      NoRedirAt(rest);
    } else {
      ItemsCons(items, rest);
      if items[0].Arg? {
        k := 0;
        assert items[k..] == items && items[..k] == [];
        NoRedirWord(items[0], ItemToks(items[1..]) + rest);
      } else {
        var more := items[1..];
        var j := LeadingRedirs(more, rest);
        k := j + 1;
        assert items[k..] == more[j..] && items[..k][1..] == more[..j];
        RedirHead(items[0], ItemToks(more) + rest, TargetsIn(more[..j]), ItemToks(more[j..]) + rest);
        assert TargetsIn(items[..k]) == TargetIn(items[0]) + TargetsIn(more[..j]);
        Reassoc(TargetIn(items[0]), TargetsIn(more[..j]), TargetsIn(more[j..]));
      }
    }
  }

  lemma {:induction false} ItemsAfter(args: seq<string>, to: seq<Target<string>>, items: seq<Item>,
                                      rest: seq<Tok<string>>)
    requires (forall i :: 0 <= i < |items| ==> ItemOk(items[i])) && EndsExec(rest)
    requires (items != [] ==> items[0].Arg?) && |args| + |ArgsIn(items)| < MAXARGS
    ensures Args(args, to, ItemToks(items) + rest) == Ok(Wrap(Exec(args + ArgsIn(items)), to + TargetsIn(items)), rest)
    decreases |items|
  {
    hide Redirs, Wrap, TargetIn;
    if items == [] {
      assert ItemToks(items) + rest == rest && args + ArgsIn(items) == args && to + TargetsIn(items) == to;
    } else {
      hide Args;
      var w, more := items[0].w, items[1..];
      var k := LeadingRedirs(more, rest);
      ItemsCons(items, rest);
      WordHead(args, to, w, ItemToks(more) + rest, TargetsIn(more[..k]), ItemToks(more[k..]) + rest);
      ItemsAfter(args + [w], to + TargetsIn(more[..k]), more[k..], rest);
      NoRedirWord(items[0], []);
      assert TargetsIn(items) == TargetsIn(more) && ArgsIn(items) == [w] + ArgsIn(more);
      Reassoc(args, [w], ArgsIn(more));
      Reassoc(to, TargetsIn(more[..k]), TargetsIn(more[k..]));
    }
  }

  lemma NotBlock(items: seq<Item>, rest: seq<Tok<string>>)
    requires (forall i :: 0 <= i < |items| ==> ItemOk(items[i])) && EndsExec(rest)
    ensures !Is(ItemToks(items) + rest, '(')
  {
    var ts := ItemToks(items) + rest;
    if items == [] {
      assert ts == rest;
    } else {
      assert ts[0] == if items[0].Arg? then Word(items[0].w) else Sym(items[0].c);
    }
  }

  /** Words and redirections in any order: the command has all the words in order, inside all the redirections, the
      first innermost. */
  lemma ItemsParse(items: seq<Item>, rest: seq<Tok<string>>)
    requires (forall i :: 0 <= i < |items| ==> ItemOk(items[i])) && EndsExec(rest) && |ArgsIn(items)| < MAXARGS
    ensures ExecOf(ItemToks(items) + rest) == Ok(Wrap(Exec(ArgsIn(items)), TargetsIn(items)), rest)
  {
    hide Redirs, Wrap, Args;
    var k := LeadingRedirs(items, rest);
    NotBlock(items, rest);
    ItemsAfter([], TargetsIn(items[..k]), items[k..], rest);
    assert [] + ArgsIn(items[k..]) == ArgsIn(items);
  }

  // ---- printing with parentheses only where the shell needs them ----

  /** How tightly a tree has to hold together where it stands: as a command of a pipeline, as a pipeline, as a pipeline
      with "&" after it, or as a whole line. */
  datatype Place = InPipe | AsPipe | AsBack | AsLine {
    function Rank(): nat {
      match this
      case InPipe => 0
      case AsPipe => 1
      case AsBack => 2
      case AsLine => 3
    }
  }

  /** The loosest place in which the tree stands without parentheses, and binds. */
  function Binds<W>(t: Cmd<W>): nat {
    match t
    case Pipe(_, _) => 1
    case Back(_) => 2
    case List(_, _) => 3
    case _ => 0
  }

  /** The tree at this place; `out` is ">" or, for ">>", "+". */
  function Terse(t: Cmd<string>, at: Place, out: char): seq<Tok<string>>
    decreases t, (at.Rank() + 4 - Binds(t)) % 4
  {
    match at
    case AsLine => if t.List? then Terse(t.left, AsBack, out) + [Sym(';')] + Terse(t.right, AsLine, out)
                   else Terse(t, AsBack, out)
    case AsBack => if t.Back? then Terse(t.cmd, AsBack, out) + [Sym('&')] else Terse(t, AsPipe, out)
    case AsPipe => if t.Pipe? then Terse(t.left, InPipe, out) + [Sym('|')] + Terse(t.right, AsPipe, out)
                   else Terse(t, InPipe, out)
    case InPipe =>
      match t
      case Exec(args) => Words(args)
      case Redir(c, to) => Terse(c, InPipe, out) + [Sym(if to.mode == O_RDONLY then '<' else out), Word(to.file)]
      case _ => Paren(Terse(t, AsLine, out))
  }

  /** Redirections after a command. */
  function RedirToks(to: seq<Target<string>>, out: char): seq<Tok<string>> {
    if to == [] then []
    else [Sym(if to[0].mode == O_RDONLY then '<' else out), Word(to[0].file)] + RedirToks(to[1..], out)
  }

  function ItemsOf(ws: seq<string>, to: seq<Target<string>>, out: char): (r: seq<Item>)
    ensures out in ">+" ==> forall i :: 0 <= i < |r| ==> ItemOk(r[i])
  {
    if ws != [] then [Arg(ws[0])] + ItemsOf(ws[1..], to, out)
    else if to != [] then
      [Into(if to[0].mode == O_RDONLY then '<' else out, to[0].file)] + ItemsOf([], to[1..], out)
    else []
  }

  lemma {:induction false} ItemsOfAre(ws: seq<string>, to: seq<Target<string>>, out: char)
    requires out in ">+" && forall i :: 0 <= i < |to| ==> TargetOk(to[i])
    ensures ItemToks(ItemsOf(ws, to, out)) == Words(ws) + RedirToks(to, out)
    ensures ArgsIn(ItemsOf(ws, to, out)) == ws && TargetsIn(ItemsOf(ws, to, out)) == to
    decreases |ws|, |to|
  {
    var items := ItemsOf(ws, to, out);
    if ws != [] {
      ItemsOfAre(ws[1..], to, out);
      assert items[1..] == ItemsOf(ws[1..], to, out);
    } else if to != [] {
      ItemsOfAre([], to[1..], out);
      assert items[1..] == ItemsOf([], to[1..], out);
      assert [to[0]] + to[1..] == to;
    }
  }

  lemma WordsThenRedirs(args: seq<string>, to: seq<Target<string>>, out: char, rest: seq<Tok<string>>)
    requires out in ">+" && (forall i :: 0 <= i < |to| ==> TargetOk(to[i])) && |args| < MAXARGS && EndsExec(rest)
    ensures ExecOf(Words(args) + (RedirToks(to, out) + rest)) == Ok(Wrap(Exec(args), to), rest)
  {
    hide ExecOf, Wrap;
    ItemsOfAre(args, to, out);
    ItemsParse(ItemsOf(args, to, out), rest);
    Reassoc(Words(args), RedirToks(to, out), rest);
  }

  lemma {:induction false} NoArgs(to: seq<Target<string>>, out: char)
    ensures forall i :: 0 <= i < |ItemsOf([], to, out)| ==> ItemsOf([], to, out)[i].Into?
  {
    if to != [] {
      NoArgs(to[1..], out);
    }
  }

  lemma {:induction false} RedirsAlone(to: seq<Target<string>>, out: char, rest: seq<Tok<string>>)
    requires out in ">+" && (forall i :: 0 <= i < |to| ==> TargetOk(to[i])) && EndsExec(rest)
    ensures Redirs(RedirToks(to, out) + rest) == Found(to, rest)
  {
    hide Redirs;
    ItemsOfAre([], to, out);
    var items := ItemsOf([], to, out);
    var k := LeadingRedirs(items, rest);
    NoArgs(to, out);
    assert k == |items|;
    assert items[..k] == items && items[k..] == [];
    assert [] + RedirToks(to, out) == RedirToks(to, out);
    assert ItemToks([]) + rest == rest;
  }

  /** What may follow a pipeline. */
  predicate EndsPipe<W(==)>(ts: seq<Tok<W>>) {
    ts == [] || Is(ts, ')') || Is(ts, '&') || Is(ts, ';')
  }

  lemma {:induction false} TersePipe(t: Cmd<string>, out: char, rest: seq<Tok<string>>)
    requires Shaped(t) && out in ">+" && EndsPipe(rest)
    ensures PipeOf(Terse(t, AsPipe, out) + rest) == Ok(t, rest)
    decreases t, (5 - Binds(t)) % 4, 2
  {
    hide ExecOf, LineOf;
    if t.Pipe? {
      var l, r := Terse(t.left, InPipe, out), Terse(t.right, AsPipe, out);
      var more := [Sym('|')] + (r + rest);
      TerseAlone(t.left, out, more);
      TersePipe(t.right, out, rest);
      assert Terse(t, AsPipe, out) + rest == l + more;
      assert more[1..] == r + rest;
    } else {
      TerseAlone(t, out, rest);
    }
  }

  lemma {:induction false} TerseBack(t: Cmd<string>, out: char, rest: seq<Tok<string>>)
    requires Shaped(t) && out in ">+" && EndsPipe(rest)
    ensures LineOf(Terse(t, AsBack, out) + rest) == TailOf(t, rest)
    decreases t, (6 - Binds(t)) % 4, 3
  {
    hide ExecOf, PipeOf;
    if t.Back? {
      var more := [Sym('&')] + rest;
      TerseBack(t.cmd, out, more);
      assert Terse(t, AsBack, out) + rest == Terse(t.cmd, AsBack, out) + more;
      assert more[1..] == rest;
    } else {
      TersePipe(t, out, rest);
    }
  }

  /** A tree printed with parentheses only around a list or "&" inside a pipe or "&", and around a pipe on the left of a
      pipe, parses to itself: "|" binds tighter than "&" and ";", and "|" and ";" group to the right. */
  lemma {:induction false} TerseLine(t: Cmd<string>, out: char, rest: seq<Tok<string>>)
    requires Shaped(t) && out in ">+" && Closes(rest)
    ensures LineOf(Terse(t, AsLine, out) + rest) == Ok(t, rest)
    decreases t, (7 - Binds(t)) % 4, 4
  {
    hide ExecOf, PipeOf;
    if t.List? {
      var l, r := Terse(t.left, AsBack, out), Terse(t.right, AsLine, out);
      var more := [Sym(';')] + (r + rest);
      TerseBack(t.left, out, more);
      TerseLine(t.right, out, rest);
      assert Terse(t, AsLine, out) + rest == l + more;
      assert more[1..] == r + rest;
    } else {
      TerseBack(t, out, rest);
    }
  }

  /** A tree in a pipeline, with more redirections after it. */
  lemma {:induction false} TerseExec(t: Cmd<string>, to: seq<Target<string>>, out: char, rest: seq<Tok<string>>)
    requires Shaped(t) && out in ">+" && (forall i :: 0 <= i < |to| ==> TargetOk(to[i])) && EndsExec(rest)
    ensures ExecOf(Terse(t, InPipe, out) + (RedirToks(to, out) + rest)) == Ok(Wrap(t, to), rest)
    decreases t, (4 - Binds(t)) % 4, 0
  {
    hide ExecOf, LineOf, PipeOf, Redirs, Paren, Words;
    var tail := RedirToks(to, out) + rest;
    match t
    case Exec(args) =>
      WordsThenRedirs(args, to, out, rest);
    case Redir(c, first) =>
      var all := [first] + to;
      assert all[1..] == to;
      TerseExec(c, all, out, rest);
      var toks := [Sym(if first.mode == O_RDONLY then '<' else out), Word(first.file)];
      assert RedirToks(all, out) == toks + RedirToks(to, out);
      assert Terse(t, InPipe, out) + tail == Terse(c, InPipe, out) + (RedirToks(all, out) + rest);
      assert Wrap(c, all) == Wrap(t, to);
    case _ =>
      var shown := Terse(t, AsLine, out);
      TerseLine(t, out, [Sym(')')] + tail);
      Reassoc(shown, [Sym(')')], tail);
      BlockParses(t, shown, tail);
      RedirsAlone(to, out, rest);
  }

  lemma TerseAlone(t: Cmd<string>, out: char, rest: seq<Tok<string>>)
    requires Shaped(t) && out in ">+" && EndsExec(rest)
    ensures ExecOf(Terse(t, InPipe, out) + rest) == Ok(t, rest)
    decreases t, (4 - Binds(t)) % 4, 1
  {
    hide ExecOf, Terse;
    TerseExec(t, [], out, rest);
    assert RedirToks([], out) + rest == rest;
  }

  lemma WordsAlone(args: seq<string>, rest: seq<Tok<string>>)
    requires |args| < MAXARGS && EndsExec(rest)
    ensures ExecOf(Words(args) + rest) == Ok(Exec(args), rest)
  {
    hide ExecOf, Words;
    WordsThenRedirs(args, [], '>', rest);
    assert RedirToks([], '>') + rest == rest;
  }

  lemma LastStage(ts: seq<Tok<string>>, c: Cmd<string>, rest: seq<Tok<string>>)
    requires ExecOf(ts) == Ok(c, rest) && !Is(rest, '|')
    ensures PipeOf(ts) == Ok(c, rest)
  {
    hide ExecOf;
  }

  lemma Stage(ts: seq<Tok<string>>, c: Cmd<string>, rest: seq<Tok<string>>, right: Cmd<string>,
              after: seq<Tok<string>>)
    requires ExecOf(ts) == Ok(c, rest) && Is(rest, '|') && PipeOf(rest[1..]) == Ok(right, after)
    ensures PipeOf(ts) == Ok(Pipe(c, right), after)
  {
    hide ExecOf;
  }

  lemma ThenLine(ts: seq<Tok<string>>, c: Cmd<string>, rest: seq<Tok<string>>, right: Cmd<string>,
                 after: seq<Tok<string>>)
    requires PipeOf(ts) == Ok(c, rest) && Is(rest, ';') && LineOf(rest[1..]) == Ok(right, after)
    ensures LineOf(ts) == Ok(List(c, right), after)
  {
    hide PipeOf;
  }

  /** An ordinary line: a pipeline, then another command. */
  lemma PipeThenList(a: seq<string>, b: seq<string>, c: seq<string>)
    requires |a| < MAXARGS && |b| < MAXARGS && |c| < MAXARGS
    ensures LineOf(Words(a) + [Sym('|')] + Words(b) + [Sym(';')] + Words(c))
            == Ok(List(Pipe(Exec(a), Exec(b)), Exec(c)), [])
  {
    hide ExecOf, PipeOf, LineOf, Words;
    var right := [Sym(';')] + Words(c);
    var mid := [Sym('|')] + (Words(b) + right);
    assert mid[1..] == Words(b) + right && right[1..] == Words(c);
    WordsAlone(a, mid);
    WordsAlone(b, right);
    WordsAlone(c, []);
    assert Words(c) + [] == Words(c);
    Alone(Words(c), Exec(c), []);
    LastStage(Words(b) + right, Exec(b), right);
    Stage(Words(a) + mid, Exec(a), mid, Exec(b), right);
    ThenLine(Words(a) + mid, Pipe(Exec(a), Exec(b)), right, Exec(c), []);
    assert Words(a) + [Sym('|')] + Words(b) + [Sym(';')] + Words(c) == Words(a) + mid;
  }

  // ---- tokens of a line ----

  function Skip(s: string, i: nat): (j: nat)
    requires i <= |s|
    ensures i <= j <= |s| && (forall k :: i <= k < j ==> White(s[k])) && (j < |s| ==> !White(s[j]))
    decreases |s| - i
  {
    if i < |s| && White(s[i]) then Skip(s, i + 1) else i
  }

  function WordEnd(s: string, i: nat): (j: nat)
    requires i <= |s|
    ensures i <= j <= |s| && (forall k :: i <= k < j ==> !White(s[k]) && !Symbol(s[k]))
    ensures j < |s| ==> White(s[j]) || Symbol(s[j])
    decreases |s| - i
  {
    if i < |s| && !White(s[i]) && !Symbol(s[i]) then WordEnd(s, i + 1) else i
  }

  datatype Lex = Lex(tok: Tok<Span>, next: nat)

  function TokenAt(s: string, i: nat): (l: Lex)
    requires i < |s| && !White(s[i])
    ensures i < l.next <= |s|
  {
    if s[i] == '>' && i + 1 < |s| && s[i + 1] == '>' then Lex(Sym('+'), i + 2)
    else if Symbol(s[i]) then Lex(Sym(s[i]), i + 1)
    else Lex(Word(Span(i, WordEnd(s, i))), WordEnd(s, i))
  }

  function Tokens(s: string, i: nat): seq<Tok<Span>>
    requires i <= |s|
    decreases |s| - i
  {
    var j := Skip(s, i);
    if j == |s| then [] else [TokenAt(s, j).tok] + Tokens(s, TokenAt(s, j).next)
  }

  lemma {:induction false} SkipTwice(s: string, i: nat)
    requires i <= |s|
    ensures Skip(s, Skip(s, i)) == Skip(s, i) && Tokens(s, Skip(s, i)) == Tokens(s, i)
  {
  }

  // ---- printing a token list, and reading it ----

  function TokText(t: Tok<string>): string {
    match t
    case Word(w) => w
    case Sym(c) => if c == '+' then ">>" else [c]
  }

  predicate TokOk(t: Tok<string>) {
    match t
    case Word(w) => IsWord(w)
    case Sym(c) => Symbol(c) || c == '+'
  }

  /** Tokens with a gap before each and one at the end. */
  function Render(ts: seq<Tok<string>>, gaps: seq<string>): string
    requires |gaps| == |ts| + 1
  {
    if ts == [] then gaps[0] else gaps[0] + (TokText(ts[0]) + Render(ts[1..], gaps[1..]))
  }

  predicate AllWhite(g: string) {
    forall i :: 0 <= i < |g| ==> White(g[i])
  }

  /** Tokens that would run together: two words, or ">" and another one. */
  predicate Clash(t: Tok<string>, u: Tok<string>) {
    (t.Word? && u.Word?) || (t == Sym('>') && (u == Sym('>') || u == Sym('+')))
  }

  /** Any white space at all, but some where two tokens would run together. */
  ghost predicate GapsOk(ts: seq<Tok<string>>, gaps: seq<string>) {
    && |gaps| == |ts| + 1 && (forall i :: 0 <= i < |gaps| ==> AllWhite(gaps[i]))
    && forall i :: 0 < i < |ts| && Clash(ts[i - 1], ts[i]) ==> gaps[i] != ""
  }

  function Text(s: string, w: Span): string {
    if w.b <= w.e <= |s| then s[w.b..w.e] else ""
  }

  function TextTok(s: string, t: Tok<Span>): Tok<string> {
    match t
    case Word(w) => Word(Text(s, w))
    case Sym(c) => Sym(c)
  }

  function Texts(s: string, ts: seq<Tok<Span>>): seq<Tok<string>> {
    if ts == [] then [] else [TextTok(s, ts[0])] + Texts(s, ts[1..])
  }

  /** The token that starts at i, where t is written and does not run on. */
  lemma LexOne(s: string, i: nat, t: Tok<string>)
    requires TokOk(t) && i + |TokText(t)| <= |s| && s[i..i + |TokText(t)|] == TokText(t)
    requires var e := i + |TokText(t)|;
             && (t.Word? && e < |s| ==> White(s[e]) || Symbol(s[e]))
             && (t == Sym('>') && e < |s| ==> s[e] != '>')
    ensures i < |s| && !White(s[i])
    ensures TokenAt(s, i).next == i + |TokText(t)| && TextTok(s, TokenAt(s, i).tok) == t
  {
    var w := TokText(t);
    var e := i + |w|;
    assert forall k :: i <= k < e ==> s[k] == s[i..e][k - i];
    if t.Word? {
      assert forall k :: i <= k < e ==> !Special(s[k]);
      var j := WordEnd(s, i);
      assert j == e;
    } else if t.c == '+' {
      assert s[i] == '>' && s[i + 1] == '>';
    } else {
      assert s[i] == t.c;
    }
  }

  lemma SliceJoin(s: string, i: nat, a: string, b: string)
    requires i <= |s| && s[i..] == a + b
    ensures i + |a| <= |s| && s[i..i + |a|] == a && s[i + |a|..] == b
  {
    var v := s[i..];
    assert v[..|a|] == a && v[|a|..] == b;
    assert s[i..i + |a|] == v[..|a|] && s[i + |a|..] == v[|a|..];
  }

  lemma SkipOne(s: string, i: nat)
    requires i < |s| && White(s[i])
    ensures Tokens(s, i) == Tokens(s, i + 1)
  {
    hide White, TokenAt;
    assert Skip(s, i) == Skip(s, i + 1);
  }

  lemma {:induction false} SkipGap(s: string, i: nat, n: nat)
    requires i + n <= |s| && forall k :: i <= k < i + n ==> White(s[k])
    ensures Tokens(s, i) == Tokens(s, i + n)
    decreases n
  {
    hide White, Tokens, Skip;
    if n > 0 {
      SkipGap(s, i + 1, n - 1);
      SkipOne(s, i);
    }
  }

  lemma TokStarts(t: Tok<string>)
    requires TokOk(t)
    ensures TokText(t) != "" && (t.Word? ==> !Symbol(TokText(t)[0])) && (!t.Word? ==> Symbol(TokText(t)[0]))
    ensures TokText(t)[0] == '>' <==> t == Sym('>') || t == Sym('+')
  {
    if t.Word? {
      assert !Special(t.w[0]);
    }
  }

  lemma WhiteNotOut(c: char)
    ensures White(c) ==> c != '>'
  {
  }

  /** What comes after a token does not run on from it. */
  lemma NoClash(t: Tok<string>, ts: seq<Tok<string>>, gaps: seq<string>)
    requires |gaps| == |ts| + 1 && AllWhite(gaps[0]) && (forall k :: 0 <= k < |ts| ==> TokOk(ts[k]))
    requires ts != [] && Clash(t, ts[0]) ==> gaps[0] != ""
    ensures var r := Render(ts, gaps);
            r != "" ==> (t.Word? ==> White(r[0]) || Symbol(r[0])) && (t == Sym('>') ==> r[0] != '>')
  {
    hide White, Symbol, TokOk;
    var r := Render(ts, gaps);
    if gaps[0] != "" {
      assert r[0] == gaps[0][0];
      WhiteNotOut(r[0]);
    } else if ts != [] {
      TokStarts(ts[0]);
      assert r[0] == TokText(ts[0])[0];
    }
  }

  lemma FirstToken(s: string, i: nat)
    requires i < |s| && !White(s[i])
    ensures Texts(s, Tokens(s, i)) == [TextTok(s, TokenAt(s, i).tok)] + Texts(s, Tokens(s, TokenAt(s, i).next))
  {
    hide TokenAt, TextTok, White, WordEnd;
    assert Skip(s, i) == i;
    var l := TokenAt(s, i);
    assert Tokens(s, i) == [l.tok] + Tokens(s, l.next);
    assert Tokens(s, i)[1..] == Tokens(s, l.next);
  }

  ghost predicate ToksOk(ts: seq<Tok<string>>) {
    forall k :: 0 <= k < |ts| ==> TokOk(ts[k])
  }

  lemma GapsRest(ts: seq<Tok<string>>, gaps: seq<string>)
    requires ToksOk(ts) && GapsOk(ts, gaps) && ts != []
    ensures ToksOk(ts[1..]) && GapsOk(ts[1..], gaps[1..]) && AllWhite(gaps[0]) && AllWhite(gaps[1]) && TokOk(ts[0])
    ensures |ts| > 1 && Clash(ts[0], ts[1]) ==> gaps[1] != ""
  {
    hide TokOk, AllWhite, Clash;
    assert forall k :: 0 <= k < |ts| ==> gaps[1..][k] == gaps[k + 1];
  }

  lemma AllOfIt(s: string, i: nat, g: string)
    requires i + |g| <= |s| && s[i..i + |g|] == g && AllWhite(g)
    ensures Tokens(s, i) == Tokens(s, i + |g|)
  {
    hide White;
    assert forall k :: i <= k < i + |g| ==> s[k] == g[k - i];
    SkipGap(s, i, |g|);
  }

  lemma EndLexes(s: string, i: nat)
    requires i <= |s| && s[i..] == ""
    ensures Texts(s, Tokens(s, i)) == []
  {
    assert i == |s|;
  }

  /** Reading a rendered token list gives the tokens back, however they are spaced. */
  lemma {:induction false} RenderLexes(s: string, i: nat, ts: seq<Tok<string>>, gaps: seq<string>)
    requires ToksOk(ts) && GapsOk(ts, gaps) && i <= |s| && s[i..] == Render(ts, gaps)
    ensures Texts(s, Tokens(s, i)) == ts
    decreases |ts|
  {
    hide TokText, TokOk, TokenAt, TextTok, White, WordEnd, Skip, Tokens, Texts, Clash;
    var g := gaps[0];
    assert AllWhite(g);
    if ts == [] {
      assert g + "" == g;
      SliceJoin(s, i, g, "");
      AllOfIt(s, i, g);
      EndLexes(s, i + |g|);
    } else {
      var w, rest, more := TokText(ts[0]), ts[1..], gaps[1..];
      SliceJoin(s, i, g, w + Render(rest, more));
      AllOfIt(s, i, g);
      var j := i + |g|;
      SliceJoin(s, j, w, Render(rest, more));
      var e := j + |w|;
      GapsRest(ts, gaps);
      NoClash(ts[0], rest, more);
      assert e < |s| ==> s[e] == s[e..][0];
      LexOne(s, j, ts[0]);
      hide Render, GapsOk, AllWhite;
      RenderLexes(s, e, rest, more);
      FirstToken(s, j);
      assert ts == [ts[0]] + rest;
    }
  }

  // ---- reading a tree's words ----

  function TextTo(s: string, t: Target<Span>): Target<string> {
    Target(Text(s, t.file), t.mode, t.fd)
  }

  function TextTos(s: string, ts: seq<Target<Span>>): (r: seq<Target<string>>)
    ensures |r| == |ts| && forall i :: 0 <= i < |ts| ==> r[i] == TextTo(s, ts[i])
  {
    if ts == [] then [] else [TextTo(s, ts[0])] + TextTos(s, ts[1..])
  }

  function TextArgs(s: string, ws: seq<Span>): seq<string> {
    if ws == [] then [] else TextArgs(s, ws[..|ws| - 1]) + [Text(s, ws[|ws| - 1])]
  }

  function CmdText(s: string, c: Cmd<Span>): Cmd<string> {
    match c
    case Exec(args) => Exec(TextArgs(s, args))
    case Redir(d, to) => Redir(CmdText(s, d), TextTo(s, to))
    case Pipe(l, r) => Pipe(CmdText(s, l), CmdText(s, r))
    case List(l, r) => List(CmdText(s, l), CmdText(s, r))
    case Back(d) => Back(CmdText(s, d))
  }

  function ResText(s: string, r: Res<Span>): Res<string> {
    match r
    case Ok(c, rest) => Ok(CmdText(s, c), Texts(s, rest))
    case Err => Err
  }

  function FoundText(s: string, r: Targets<Span>): Targets<string> {
    match r
    case Found(to, rest) => Found(TextTos(s, to), Texts(s, rest))
    case Missing => Missing
  }

  lemma {:induction false} TextsAt(s: string, ts: seq<Tok<Span>>)
    ensures |Texts(s, ts)| == |ts|
    ensures ts != [] ==> Texts(s, ts)[0] == TextTok(s, ts[0]) && Texts(s, ts)[1..] == Texts(s, ts[1..])
    ensures |ts| > 1 ==> Texts(s, ts)[1] == TextTok(s, ts[1]) && Texts(s, ts)[2..] == Texts(s, ts[2..])
  {
    if ts != [] {
      TextsAt(s, ts[1..]);
      if |ts| > 1 {
        assert ts[1..][0] == ts[1] && ts[1..][1..] == ts[2..];
        assert Texts(s, ts)[2..] == Texts(s, ts)[1..][1..];
      }
    }
  }

  lemma SameHead(s: string, ts: seq<Tok<Span>>, c: char)
    ensures Is(Texts(s, ts), c) <==> Is(ts, c)
  {
    TextsAt(s, ts);
  }

  lemma {:induction false} TextRedirs(s: string, ts: seq<Tok<Span>>)
    ensures Redirs(Texts(s, ts)) == FoundText(s, Redirs(ts))
    decreases |ts|
  {
    TextsAt(s, ts);
    if Redirects(ts) && |ts| >= 2 && ts[1].Word? {
      TextRedirs(s, ts[2..]);
    }
  }

  lemma {:induction false} TextArgsSize(s: string, ws: seq<Span>)
    ensures |TextArgs(s, ws)| == |ws|
  {
    if ws != [] {
      TextArgsSize(s, ws[..|ws| - 1]);
    }
  }

  lemma TextTosAppend(s: string, a: seq<Target<Span>>, b: seq<Target<Span>>)
    ensures TextTos(s, a + b) == TextTos(s, a) + TextTos(s, b)
  {
    hide TextTos;
    var ab, ta, tb, tab := a + b, TextTos(s, a), TextTos(s, b), TextTos(s, a + b);
    forall i | 0 <= i < |ab|
      ensures tab[i] == (ta + tb)[i]
    {
      assert tab[i] == TextTo(s, ab[i]);
    }
  }

  lemma {:induction false} TextWrap(s: string, c: Cmd<Span>, to: seq<Target<Span>>)
    ensures CmdText(s, Wrap(c, to)) == Wrap(CmdText(s, c), TextTos(s, to))
    decreases |to|
  {
    if to != [] {
      TextWrap(s, Redir(c, to[0]), to[1..]);
      assert TextTos(s, to)[1..] == TextTos(s, to[1..]);
    }
  }

  lemma {:induction false} TextArgsOf(s: string, args: seq<Span>, to: seq<Target<Span>>, ts: seq<Tok<Span>>)
    ensures Args(TextArgs(s, args), TextTos(s, to), Texts(s, ts)) == ResText(s, Args(args, to, ts))
    decreases |ts|
  {
    hide Redirs, Wrap;
    TextsAt(s, ts);
    TextArgsSize(s, args);
    if EndsExec(ts) {
      TextWrap(s, Exec(args), to);
    } else if ts[0].Word? && |args| + 1 < MAXARGS {
      TextRedirs(s, ts[1..]);
      var r := Redirs(ts[1..]);
      if r.Found? {
        TextTosAppend(s, to, r.to);
        assert (args + [ts[0].w])[..|args|] == args;
        TextArgsOf(s, args + [ts[0].w], to + r.to, r.rest);
      }
    }
  }

  lemma {:induction false} TextExec(s: string, ts: seq<Tok<Span>>)
    ensures ExecOf(Texts(s, ts)) == ResText(s, ExecOf(ts))
    decreases |ts|, 1
  {
    hide Redirs, Args, BlockOf;
    SameHead(s, ts, '(');
    if Is(ts, '(') {
      TextBlock(s, ts);
    } else {
      TextRedirs(s, ts);
      var r := Redirs(ts);
      if r.Found? {
        TextArgsOf(s, [], r.to, r.rest);
      }
    }
  }

  lemma {:induction false} TextPipe(s: string, ts: seq<Tok<Span>>)
    ensures PipeOf(Texts(s, ts)) == ResText(s, PipeOf(ts))
    decreases |ts|, 2
  {
    hide ExecOf;
    TextExec(s, ts);
    var r := ExecOf(ts);
    if r.Ok? {
      SameHead(s, r.rest, '|');
      if Is(r.rest, '|') {
        TextsAt(s, r.rest);
        TextPipe(s, r.rest[1..]);
      }
    }
  }

  lemma {:induction false} TextTail(s: string, c: Cmd<Span>, ts: seq<Tok<Span>>)
    ensures TailOf(CmdText(s, c), Texts(s, ts)) == ResText(s, TailOf(c, ts))
    decreases |ts|, 3
  {
    hide LineOf;
    SameHead(s, ts, '&');
    SameHead(s, ts, ';');
    TextsAt(s, ts);
    if Is(ts, '&') {
      TextTail(s, Back(c), ts[1..]);
    } else if Is(ts, ';') {
      TextLine(s, ts[1..]);
    }
  }

  /** The grammar looks at symbols only: parsing the texts gives the text of the parse. */
  lemma {:induction false} TextLine(s: string, ts: seq<Tok<Span>>)
    ensures LineOf(Texts(s, ts)) == ResText(s, LineOf(ts))
    decreases |ts|, 4
  {
    hide PipeOf, TailOf;
    TextPipe(s, ts);
    var r := PipeOf(ts);
    if r.Ok? {
      TextTail(s, r.cmd, r.rest);
    }
  }

  lemma {:induction false} TextBlock(s: string, ts: seq<Tok<Span>>)
    requires Is(ts, '(') && Is(Texts(s, ts), '(')
    ensures BlockOf(Texts(s, ts)) == ResText(s, BlockOf(ts))
    decreases |ts|, 0
  {
    hide Redirs, Wrap, LineOf;
    TextsAt(s, ts);
    TextLine(s, ts[1..]);
    var r := LineOf(ts[1..]);
    if r.Ok? {
      SameHead(s, r.rest, ')');
      if Is(r.rest, ')') {
        TextsAt(s, r.rest);
        TextRedirs(s, r.rest[1..]);
        var f := Redirs(r.rest[1..]);
        if f.Found? {
          TextWrap(s, r.cmd, f.to);
        }
      }
    }
  }

  // ---- no word is lost ----

  function WordToks<W>(ts: seq<Tok<W>>): multiset<W> {
    if ts == [] then multiset{}
    else (if ts[0].Word? then multiset{ts[0].w} else multiset{}) + WordToks(ts[1..])
  }

  function FileSeq<W>(to: seq<Target<W>>): (r: seq<W>)
    ensures |r| == |to| && forall i :: 0 <= i < |to| ==> r[i] == to[i].file
  {
    if to == [] then [] else FileSeq(to[..|to| - 1]) + [to[|to| - 1].file]
  }

  function Files<W>(to: seq<Target<W>>): multiset<W> {
    multiset(FileSeq(to))
  }

  predicate TargetsOk<W>(to: seq<Target<W>>) {
    forall i :: 0 <= i < |to| ==> TargetOk(to[i])
  }

  lemma FilesAppend<W>(a: seq<Target<W>>, b: seq<Target<W>>)
    ensures Files(a + b) == Files(a) + Files(b)
  {
    hide FileSeq;
    assert FileSeq(a + b) == FileSeq(a) + FileSeq(b);
  }

  lemma FilesCons<W>(t: Target<W>, b: seq<Target<W>>)
    ensures Files([t] + b) == multiset{t.file} + Files(b)
  {
    hide FileSeq;
    assert FileSeq([t]) == [t.file];
    FilesAppend([t], b);
  }

  lemma {:induction false} WrapWords<W>(c: Cmd<W>, to: seq<Target<W>>)
    requires Shaped(c) && TargetsOk(to)
    ensures Shaped(Wrap(c, to)) && WordsIn(Wrap(c, to)) == WordsIn(c) + Files(to)
    decreases |to|
  {
    hide FileSeq;
    if to != [] {
      WrapWords(Redir(c, to[0]), to[1..]);
      FilesCons(to[0], to[1..]);
      assert [to[0]] + to[1..] == to;
    }
  }

  lemma FilesNone<W>()
    ensures Files<W>([]) == multiset{}
  {
  }

  lemma ToOk<W>(c: char, w: W)
    ensures TargetOk(To(c, w)) && To(c, w).file == w
  {
  }

  lemma SymThenWord<W>(ts: seq<Tok<W>>)
    requires |ts| >= 2 && ts[0].Sym? && ts[1].Word?
    ensures WordToks(ts) == multiset{ts[1].w} + WordToks(ts[2..])
  {
    assert ts[1..][1..] == ts[2..] && ts[1..][0] == ts[1];
    assert WordToks(ts) == WordToks(ts[1..]);
  }

  lemma {:induction false} RedirsWords<W>(ts: seq<Tok<W>>)
    ensures var r := Redirs(ts); r.Found? ==> TargetsOk(r.to) && Files(r.to) + WordToks(r.rest) == WordToks(ts)
    decreases |ts|
  {
    hide WordToks, Files, To;
    assert Files<W>([]) == multiset{} by {
      FilesNone<W>();
    }
    if Redirects(ts) && |ts| >= 2 && ts[1].Word? {
      RedirsWords(ts[2..]);
      SymThenWord(ts);
      var r := Redirs(ts[2..]);
      if r.Found? {
        ToOk(ts[0].c, ts[1].w);
        FilesCons(To(ts[0].c, ts[1].w), r.to);
      }
    }
  }

  lemma {:induction false} ArgsWords<W>(args: seq<W>, to: seq<Target<W>>, ts: seq<Tok<W>>)
    requires |args| < MAXARGS && TargetsOk(to)
    ensures var r := Args(args, to, ts);
            r.Ok? ==> Shaped(r.cmd) && WordsIn(r.cmd) + WordToks(r.rest) == multiset(args) + Files(to) + WordToks(ts)
    decreases |ts|
  {
    hide Redirs, Wrap, Files;
    if EndsExec(ts) {
      WrapWords(Exec(args), to);
    } else if ts[0].Word? && |args| + 1 < MAXARGS {
      RedirsWords(ts[1..]);
      var r := Redirs(ts[1..]);
      if r.Found? {
        FilesAppend(to, r.to);
        ArgsWords(args + [ts[0].w], to + r.to, r.rest);
      }
    }
  }

  lemma {:induction false} ExecWords<W>(ts: seq<Tok<W>>)
    ensures var r := ExecOf(ts); r.Ok? ==> Shaped(r.cmd) && WordsIn(r.cmd) + WordToks(r.rest) == WordToks(ts)
    decreases |ts|, 1
  {
    hide Redirs, Args, BlockOf;
    if Is(ts, '(') {
      BlockWords(ts);
    } else {
      RedirsWords(ts);
      var r := Redirs(ts);
      if r.Found? {
        ArgsWords([], r.to, r.rest);
      }
    }
  }

  lemma {:induction false} PipeWords<W>(ts: seq<Tok<W>>)
    ensures var r := PipeOf(ts); r.Ok? ==> Shaped(r.cmd) && WordsIn(r.cmd) + WordToks(r.rest) == WordToks(ts)
    decreases |ts|, 2
  {
    hide ExecOf;
    ExecWords(ts);
    var r := ExecOf(ts);
    if r.Ok? && Is(r.rest, '|') {
      PipeWords(r.rest[1..]);
    }
  }

  lemma {:induction false} TailWords<W>(c: Cmd<W>, ts: seq<Tok<W>>)
    requires Shaped(c)
    ensures var r := TailOf(c, ts); r.Ok? ==>
              Shaped(r.cmd) && WordsIn(r.cmd) + WordToks(r.rest) == WordsIn(c) + WordToks(ts)
    decreases |ts|, 3
  {
    hide LineOf;
    if Is(ts, '&') {
      TailWords(Back(c), ts[1..]);
    } else if Is(ts, ';') {
      LineWords(ts[1..]);
    }
  }

  /** A parse yields a tree the shell can run, with every word of the line in it exactly once. */
  lemma {:induction false} LineWords<W>(ts: seq<Tok<W>>)
    ensures var r := LineOf(ts); r.Ok? ==> Shaped(r.cmd) && WordsIn(r.cmd) + WordToks(r.rest) == WordToks(ts)
    decreases |ts|, 4
  {
    hide PipeOf, TailOf;
    PipeWords(ts);
    var r := PipeOf(ts);
    if r.Ok? {
      TailWords(r.cmd, r.rest);
    }
  }

  lemma {:induction false} BlockWords<W>(ts: seq<Tok<W>>)
    requires Is(ts, '(')
    ensures var r := BlockOf(ts); r.Ok? ==> Shaped(r.cmd) && WordsIn(r.cmd) + WordToks(r.rest) == WordToks(ts)
    decreases |ts|, 0
  {
    hide Redirs, Wrap, LineOf;
    LineWords(ts[1..]);
    var r := LineOf(ts[1..]);
    if r.Ok? && Is(r.rest, ')') {
      RedirsWords(r.rest[1..]);
      var f := Redirs(r.rest[1..]);
      if f.Found? {
        WrapWords(r.cmd, f.to);
      }
    }
  }

  // ---- a parse accounts for every symbol ----

  /** What a symbol counts for x: ">>" counts as ">", and for "(" a ")" counts against it. */
  function Weight(c: char, x: char): int {
    if x == '(' then (if c == '(' then 1 else if c == ')' then -1 else 0)
    else if c == x || (c == '+' && x == '>') then 1 else 0
  }

  function Count<W>(ts: seq<Tok<W>>, x: char): int {
    if ts == [] then 0 else (if ts[0].Sym? then Weight(ts[0].c, x) else 0) + Count(ts[1..], x)
  }

  function TargetSym<W>(to: Target<W>): char {
    if to.mode == O_RDONLY then '<' else '>'
  }

  function TargetCount<W>(to: seq<Target<W>>, x: char): int {
    if to == [] then 0 else Weight(TargetSym(to[0]), x) + TargetCount(to[1..], x)
  }

  /** The nodes of a tree that symbol x makes. */
  function Nodes<W>(t: Cmd<W>, x: char): int {
    match t
    case Exec(_) => 0
    case Redir(c, to) => Nodes(c, x) + Weight(TargetSym(to), x)
    case Pipe(l, r) => Nodes(l, x) + Nodes(r, x) + Weight('|', x)
    case List(l, r) => Nodes(l, x) + Nodes(r, x) + Weight(';', x)
    case Back(c) => Nodes(c, x) + Weight('&', x)
  }

  lemma {:induction false} NoParens<W>(t: Cmd<W>)
    ensures Nodes(t, '(') == 0
  {
    match t
    case Exec(_) =>
    case Redir(c, _) => NoParens(c);
    case Pipe(l, r) =>
      NoParens(l);
      NoParens(r);
    case List(l, r) =>
      NoParens(l);
      NoParens(r);
    case Back(c) => NoParens(c);
  }

  lemma {:induction false} TargetCountAppend<W>(a: seq<Target<W>>, b: seq<Target<W>>, x: char)
    ensures TargetCount(a + b, x) == TargetCount(a, x) + TargetCount(b, x)
  {
    if a == [] {
      assert a + b == b;
    } else {
      assert (a + b)[1..] == a[1..] + b;
      TargetCountAppend(a[1..], b, x);
    }
  }

  lemma {:induction false} WrapNodes<W>(c: Cmd<W>, to: seq<Target<W>>, x: char)
    ensures Nodes(Wrap(c, to), x) == Nodes(c, x) + TargetCount(to, x)
    decreases |to|
  {
    if to != [] {
      WrapNodes(Redir(c, to[0]), to[1..], x);
    }
  }

  lemma {:induction false} RedirsCount<W>(ts: seq<Tok<W>>, x: char)
    requires x != '+' && x != ')'
    ensures var r := Redirs(ts); r.Found? ==> Count(ts, x) == TargetCount(r.to, x) + Count(r.rest, x)
    decreases |ts|
  {
    if Redirects(ts) && |ts| >= 2 && ts[1].Word? {
      RedirsCount(ts[2..], x);
      assert ts[1..][1..] == ts[2..] && ts[1..][0] == ts[1];
      var r := Redirs(ts[2..]);
      if r.Found? {
        assert ([To(ts[0].c, ts[1].w)] + r.to)[1..] == r.to;
      }
    }
  }

  lemma {:induction false} ArgsCount<W>(args: seq<W>, to: seq<Target<W>>, ts: seq<Tok<W>>, x: char)
    requires x != '+' && x != ')'
    ensures var r := Args(args, to, ts);
            r.Ok? ==> TargetCount(to, x) + Count(ts, x) == Nodes(r.cmd, x) + Count(r.rest, x)
    decreases |ts|
  {
    hide Redirs, Wrap;
    if EndsExec(ts) {
      WrapNodes(Exec(args), to, x);
    } else if ts[0].Word? && |args| + 1 < MAXARGS {
      RedirsCount(ts[1..], x);
      var r := Redirs(ts[1..]);
      if r.Found? {
        TargetCountAppend(to, r.to, x);
        ArgsCount(args + [ts[0].w], to + r.to, r.rest, x);
      }
    }
  }

  lemma {:induction false} ExecCount<W>(ts: seq<Tok<W>>, x: char)
    requires x != '+' && x != ')'
    ensures var r := ExecOf(ts); r.Ok? ==> Count(ts, x) == Nodes(r.cmd, x) + Count(r.rest, x)
    decreases |ts|, 1
  {
    hide Redirs, Args, BlockOf;
    if Is(ts, '(') {
      BlockCount(ts, x);
    } else {
      RedirsCount(ts, x);
      var r := Redirs(ts);
      if r.Found? {
        ArgsCount([], r.to, r.rest, x);
      }
    }
  }

  lemma {:induction false} PipeCount<W>(ts: seq<Tok<W>>, x: char)
    requires x != '+' && x != ')'
    ensures var r := PipeOf(ts); r.Ok? ==> Count(ts, x) == Nodes(r.cmd, x) + Count(r.rest, x)
    decreases |ts|, 2
  {
    hide ExecOf;
    ExecCount(ts, x);
    var r := ExecOf(ts);
    if r.Ok? && Is(r.rest, '|') {
      PipeCount(r.rest[1..], x);
    }
  }

  lemma {:induction false} TailCount<W>(c: Cmd<W>, ts: seq<Tok<W>>, x: char)
    requires x != '+' && x != ')'
    ensures var r := TailOf(c, ts); r.Ok? ==> Nodes(c, x) + Count(ts, x) == Nodes(r.cmd, x) + Count(r.rest, x)
    decreases |ts|, 3
  {
    hide LineOf;
    if Is(ts, '&') {
      TailCount(Back(c), ts[1..], x);
    } else if Is(ts, ';') {
      LineCount(ts[1..], x);
    }
  }

  /** A parse accounts for every symbol: each "|", ";", "&" and redirection is one node of the tree, and there are as
      many ")" as "(". */
  lemma {:induction false} LineCount<W>(ts: seq<Tok<W>>, x: char)
    requires x != '+' && x != ')'
    ensures var r := LineOf(ts); r.Ok? ==> Count(ts, x) == Nodes(r.cmd, x) + Count(r.rest, x)
    decreases |ts|, 4
  {
    hide PipeOf, TailOf;
    PipeCount(ts, x);
    var r := PipeOf(ts);
    if r.Ok? {
      TailCount(r.cmd, r.rest, x);
    }
  }

  lemma {:induction false} BlockCount<W>(ts: seq<Tok<W>>, x: char)
    requires Is(ts, '(') && x != '+' && x != ')'
    ensures var r := BlockOf(ts); r.Ok? ==> Count(ts, x) == Nodes(r.cmd, x) + Count(r.rest, x)
    decreases |ts|, 0
  {
    hide Redirs, Wrap, LineOf;
    LineCount(ts[1..], x);
    var r := LineOf(ts[1..]);
    if r.Ok? && Is(r.rest, ')') {
      RedirsCount(r.rest[1..], x);
      var f := Redirs(r.rest[1..]);
      if f.Found? {
        WrapNodes(r.cmd, f.to, x);
      }
    }
  }

  /** The tree of a line, if all of it parses. */
  function LineTree(s: string): (r: Res<Span>) {
    match LineOf(Tokens(s, 0))
    case Ok(c, rest) => if rest == [] then Ok(c, []) else Err
    case Err => Err
  }

  ghost predicate StringsOk(ws: multiset<string>) {
    forall w :: w in ws ==> IsWord(w)
  }

  lemma {:induction false} WordsOk(ws: seq<string>)
    requires StringsOk(multiset(ws))
    ensures ToksOk(Words(ws))
  {
    hide IsWord;
    if ws != [] {
      assert ws == [ws[0]] + ws[1..];
      WordsOk(ws[1..]);
    }
  }

  lemma ToksOkJoin(a: seq<Tok<string>>, b: seq<Tok<string>>)
    requires ToksOk(a) && ToksOk(b)
    ensures ToksOk(a + b)
  {
    hide TokOk;
  }

  lemma ToksOkParen(a: seq<Tok<string>>)
    requires ToksOk(a)
    ensures ToksOk(Paren(a))
  {
    hide IsWord;
  }

  lemma OneToken(c: char)
    requires Symbol(c)
    ensures ToksOk([Sym(c)])
  {
  }

  lemma TargetToks(c: char, w: string)
    requires (Symbol(c) || c == '+') && IsWord(w)
    ensures ToksOk([Sym(c), Word(w)])
  {
    hide IsWord;
  }

  lemma ToksOkBetween(a: seq<Tok<string>>, op: char, b: seq<Tok<string>>)
    requires ToksOk(a) && ToksOk(b) && Symbol(op)
    ensures ToksOk(a + [Sym(op)] + b)
  {
    hide ToksOk, Symbol;
    OneToken(op);
    ToksOkJoin(a, [Sym(op)]);
    ToksOkJoin(a + [Sym(op)], b);
  }

  lemma ShowOkTwo(a: seq<Tok<string>>, op: char, b: seq<Tok<string>>)
    requires ToksOk(a) && ToksOk(b) && Symbol(op)
    ensures ToksOk(Paren(a) + [Sym(op)] + Paren(b))
  {
    hide ToksOk, Paren;
    ToksOkParen(a);
    ToksOkParen(b);
    OneToken(op);
    ToksOkJoin(Paren(a), [Sym(op)]);
    ToksOkJoin(Paren(a) + [Sym(op)], Paren(b));
  }

  lemma {:induction false} ShowOk(t: Cmd<string>)
    requires StringsOk(WordsIn(t))
    ensures ToksOk(Show(t))
  {
    hide IsWord, ToksOk, Paren, Words;
    match t
    case Exec(args) =>
      WordsOk(args);
    case Redir(c, to) =>
      assert to.file in WordsIn(t);
      ShowOk(c);
      ToksOkParen(Show(c));
      TargetToks(if to.mode == O_RDONLY then '<' else '>', to.file);
      ToksOkJoin(Paren(Show(c)), [Sym(if to.mode == O_RDONLY then '<' else '>'), Word(to.file)]);
    case Pipe(l, r) =>
      ShowOk(l);
      ShowOk(r);
      ShowOkTwo(Show(l), '|', Show(r));
    case List(l, r) =>
      ShowOk(l);
      ShowOk(r);
      ShowOkTwo(Show(l), ';', Show(r));
    case Back(c) =>
      ShowOk(c);
      ToksOkParen(Show(c));
      OneToken('&');
      ToksOkJoin(Paren(Show(c)), [Sym('&')]);
  }

  /** A line whose tokens parse to a tree parses to that tree. */
  lemma RenderParses(ts: seq<Tok<string>>, gaps: seq<string>, t: Cmd<string>)
    requires ToksOk(ts) && GapsOk(ts, gaps) && LineOf(ts) == Ok(t, [])
    ensures var s := Render(ts, gaps); LineTree(s).Ok? && CmdText(s, LineTree(s).cmd) == t
  {
    hide LineOf, Tokens, Render, ToksOk;
    var s := Render(ts, gaps);
    assert s[0..] == s;
    RenderLexes(s, 0, ts, gaps);
    TextLine(s, Tokens(s, 0));
    TextsAt(s, LineOf(Tokens(s, 0)).rest);
  }

  /** Every command tree, printed with parentheses around every part and parsed again, is itself. */
  lemma RoundTrip(t: Cmd<string>, gaps: seq<string>)
    requires WellFormed(t) && GapsOk(Show(t), gaps)
    ensures var s := Render(Show(t), gaps); LineTree(s).Ok? && CmdText(s, LineTree(s).cmd) == t
  {
    hide LineOf, Tokens, Render, Show;
    ShowOk(t);
    assert Show(t) + [] == Show(t);
    ShowParses(t, []);
    RenderParses(Show(t), gaps, t);
  }

  lemma PartsOk(t: Cmd<string>)
    requires StringsOk(WordsIn(t))
    ensures t.Exec? ==> StringsOk(multiset(t.args))
    ensures t.Redir? ==> StringsOk(WordsIn(t.cmd)) && IsWord(t.to.file)
    ensures t.Pipe? || t.List? ==> StringsOk(WordsIn(t.left)) && StringsOk(WordsIn(t.right))
    ensures t.Back? ==> StringsOk(WordsIn(t.cmd))
  {
    hide IsWord;
    if t.Redir? {
      assert t.to.file in WordsIn(t);
    }
  }

  lemma {:induction false} TerseOk(t: Cmd<string>, at: Place, out: char)
    requires StringsOk(WordsIn(t)) && out in ">+"
    ensures ToksOk(Terse(t, at, out))
    decreases t, (at.Rank() + 4 - Binds(t)) % 4
  {
    PartsOk(t);
    hide IsWord, ToksOk, Paren, Words, StringsOk, WordsIn;
    match at
    case AsLine =>
      if t.List? {
        TerseOk(t.left, AsBack, out);
        TerseOk(t.right, AsLine, out);
        ToksOkBetween(Terse(t.left, AsBack, out), ';', Terse(t.right, AsLine, out));
      } else {
        TerseOk(t, AsBack, out);
      }
    case AsBack =>
      if t.Back? {
        TerseOk(t.cmd, AsBack, out);
        OneToken('&');
        ToksOkJoin(Terse(t.cmd, AsBack, out), [Sym('&')]);
      } else {
        TerseOk(t, AsPipe, out);
      }
    case AsPipe =>
      if t.Pipe? {
        TerseOk(t.left, InPipe, out);
        TerseOk(t.right, AsPipe, out);
        ToksOkBetween(Terse(t.left, InPipe, out), '|', Terse(t.right, AsPipe, out));
      } else {
        TerseOk(t, InPipe, out);
      }
    case InPipe =>
      match t
      case Exec(args) =>
        WordsOk(args);
      case Redir(c, to) =>
        TerseOk(c, InPipe, out);
        TargetToks(if to.mode == O_RDONLY then '<' else out, to.file);
        ToksOkJoin(Terse(c, InPipe, out), [Sym(if to.mode == O_RDONLY then '<' else out), Word(to.file)]);
      case _ =>
        TerseOk(t, AsLine, out);
        ToksOkParen(Terse(t, AsLine, out));
  }

  /** And so is every command tree printed as one would type it, with ">" or with ">>". */
  lemma TerseRoundTrip(t: Cmd<string>, out: char, gaps: seq<string>)
    requires WellFormed(t) && out in ">+" && GapsOk(Terse(t, AsLine, out), gaps)
    ensures var s := Render(Terse(t, AsLine, out), gaps); LineTree(s).Ok? && CmdText(s, LineTree(s).cmd) == t
  {
    hide LineOf, Tokens, Render, Terse;
    TerseOk(t, AsLine, out);
    TerseLine(t, out, []);
    assert Terse(t, AsLine, out) + [] == Terse(t, AsLine, out);
    RenderParses(Terse(t, AsLine, out), gaps, t);
  }

  /** A word as the lexer cuts it: not empty, nothing special in it, and something special or the end
      of the line after it. */
  ghost predicate WordSpan(s: string, w: Span) {
    && w.b < w.e <= |s| && (forall k :: w.b <= k < w.e ==> !Special(s[k]))
    && (w.e < |s| ==> Special(s[w.e]))
  }

  ghost predicate NoNul(s: string) {
    forall k :: 0 <= k < |s| ==> s[k] != '\0'
  }

  lemma {:induction false} TokensCut(s: string, i: nat)
    requires i <= |s| && NoNul(s)
    ensures forall w :: w in WordToks(Tokens(s, i)) ==> WordSpan(s, w)
    decreases |s| - i
  {
    hide White, Symbol;
    var j := Skip(s, i);
    if j < |s| {
      var l := TokenAt(s, j);
      TokensCut(s, l.next);
      assert Tokens(s, i)[1..] == Tokens(s, l.next);
      assert l.tok.Word? ==> WordSpan(s, l.tok.w);
    }
  }

  lemma {:induction false} TextShaped(s: string, c: Cmd<Span>)
    ensures Shaped(CmdText(s, c)) <==> Shaped(c)
  {
    match c
    case Exec(args) =>
      TextArgsSize(s, args);
    case Redir(d, to) =>
      TextShaped(s, d);
    case Pipe(l, r) =>
      TextShaped(s, l);
      TextShaped(s, r);
    case List(l, r) =>
      TextShaped(s, l);
      TextShaped(s, r);
    case Back(d) =>
      TextShaped(s, d);
  }

  lemma SpanIsWord(s: string, w: Span)
    requires WordSpan(s, w)
    ensures IsWord(Text(s, w))
  {
    hide Special;
  }

  ghost predicate SpansOk(s: string, ws: multiset<Span>) {
    forall w :: w in ws ==> WordSpan(s, w)
  }

  lemma {:induction false} TextArgsWords(s: string, ws: seq<Span>)
    requires SpansOk(s, multiset(ws))
    ensures StringsOk(multiset(TextArgs(s, ws)))
  {
    hide IsWord, WordSpan, Text;
    if ws != [] {
      var n := |ws| - 1;
      assert ws == ws[..n] + [ws[n]];
      TextArgsWords(s, ws[..n]);
      SpanIsWord(s, ws[n]);
    }
  }

  lemma {:induction false} TextWords(s: string, c: Cmd<Span>)
    requires SpansOk(s, WordsIn(c))
    ensures StringsOk(WordsIn(CmdText(s, c)))
  {
    hide IsWord, WordSpan, Text, TextArgs;
    match c
    case Exec(args) =>
      TextArgsWords(s, args);
    case Redir(d, to) =>
      assert to.file in WordsIn(c);
      SpanIsWord(s, to.file);
      TextWords(s, d);
    case Pipe(l, r) =>
      TextWords(s, l);
      TextWords(s, r);
    case List(l, r) =>
      TextWords(s, l);
      TextWords(s, r);
    case Back(d) =>
      TextWords(s, d);
  }

  /** What is known of every line that parses: its tree holds each of its words and each of its symbols once, but for
      parentheses, which come in pairs; and it is a tree that printing and parsing preserve. */
  lemma Accepted(s: string)
    requires NoNul(s) && LineTree(s).Ok?
    ensures forall x :: x in "<|>&;" ==> Count(Tokens(s, 0), x) == Nodes(LineTree(s).cmd, x)
    ensures Count(Tokens(s, 0), '(') == 0
    ensures WordsIn(LineTree(s).cmd) == WordToks(Tokens(s, 0))
    ensures forall w :: w in WordsIn(LineTree(s).cmd) ==> WordSpan(s, w)
    ensures WellFormed(CmdText(s, LineTree(s).cmd))
  {
    hide LineOf, Tokens, IsWord, WordSpan;
    forall x | x in "<|>&;"
      ensures Count(Tokens(s, 0), x) == Nodes(LineTree(s).cmd, x)
    {
      LineCount(Tokens(s, 0), x);
    }
    LineCount(Tokens(s, 0), '(');
    NoParens(LineTree(s).cmd);
    LineWords(Tokens(s, 0));
    TokensCut(s, 0);
    TextShaped(s, LineTree(s).cmd);
    TextWords(s, LineTree(s).cmd);
  }

  // ---- recursive descent ----

  function Kind(t: Tok<Span>): char {
    if t.Word? then 'a' else t.c
  }

  /** The character a token starts with, if it is a symbol. */
  predicate StartsIn(ts: seq<Tok<Span>>, toks: string) {
    ts != [] && ts[0].Sym? && (if ts[0].c == '+' then '>' else ts[0].c) in toks
  }

  /** A parse method did what the grammar says. */
  ghost predicate Follows(r: Res<Span>, ok: bool, c: Cmd<Span>, left: seq<Tok<Span>>) {
    if ok then r == Ok(c, left) else r == Err
  }

  function Ahead<W>(done: seq<Target<W>>, r: Targets<W>): Targets<W> {
    match r
    case Found(to, rest) => Found(done + to, rest)
    case Missing => Missing
  }

  lemma RedirStep(done: seq<Target<Span>>, ts: seq<Tok<Span>>)
    requires Redirects(ts)
    ensures |ts| < 2 || !ts[1].Word? ==> Redirs(ts) == Missing
    ensures |ts| >= 2 && ts[1].Word? ==>
              Ahead(done, Redirs(ts)) == Ahead(done + [To(ts[0].c, ts[1].w)], Redirs(ts[2..]))
  {
    if |ts| >= 2 && ts[1].Word? {
      var r := Redirs(ts[2..]);
      if r.Found? {
        var t := To(ts[0].c, ts[1].w);
        assert done + ([t] + r.to) == done + [t] + r.to;
      }
    }
  }

  lemma AheadMissing(a: seq<Target<Span>>, b: seq<Target<Span>>, r: Targets<Span>, q: Targets<Span>)
    requires Ahead(a, r) == Ahead(b, q)
    ensures q == Missing ==> r == Missing
  {
  }

  lemma AheadNone(r: Targets<Span>)
    ensures Ahead([], r) == r
  {
    if r.Found? {
      assert [] + r.to == r.to;
    }
  }

  lemma NoMoreRedirs(to: seq<Target<Span>>, ts: seq<Tok<Span>>)
    requires !Redirects(ts)
    ensures Ahead(to, Redirs(ts)) == Found(to, ts)
  {
    assert to + [] == to;
  }

  lemma ExecUnfold(ts: seq<Tok<Span>>)
    ensures Is(ts, '(') ==> ExecOf(ts) == BlockOf(ts)
    ensures !Is(ts, '(') && Redirs(ts) == Missing ==> ExecOf(ts) == Err
    ensures !Is(ts, '(') ==>
              forall to, rest :: Ahead([], Redirs(ts)) == Found(to, rest) ==> ExecOf(ts) == Args([], to, rest)
  {
    hide Args, BlockOf, Redirs;
    var r := Redirs(ts);
    if r.Found? {
      assert [] + r.to == r.to;
    }
  }

  lemma ArgsUnfold(args: seq<Span>, to: seq<Target<Span>>, ts: seq<Tok<Span>>)
    ensures EndsExec(ts) ==> Args(args, to, ts) == Ok(Wrap(Exec(args), to), ts)
    ensures !EndsExec(ts) && (!ts[0].Word? || |args| + 1 >= MAXARGS) ==> Args(args, to, ts) == Err
    ensures !EndsExec(ts) && ts[0].Word? && Redirs(ts[1..]) == Missing ==> Args(args, to, ts) == Err
    ensures !EndsExec(ts) && ts[0].Word? && |args| + 1 < MAXARGS ==>
              forall more, rest :: Ahead(to, Redirs(ts[1..])) == Found(more, rest) ==>
                   Args(args, to, ts) == Args(args + [ts[0].w], more, rest)
  {
    hide Redirs, Wrap;
  }

  /** What the lexer says about the next token. */
  lemma NextToken(s: string, i: nat)
    requires i <= |s|
    ensures var j := Skip(s, i);
            if j == |s| then Tokens(s, i) == [] && Tokens(s, j) == []
            else
              && !White(s[j]) && Tokens(s, i) != [] && Tokens(s, i)[0] == TokenAt(s, j).tok
              && Tokens(s, i)[1..] == Tokens(s, TokenAt(s, j).next)
  {
    hide White;
    var j := Skip(s, i);
    SkipTwice(s, i);
    if j < |s| {
      assert Tokens(s, i) == [TokenAt(s, j).tok] + Tokens(s, TokenAt(s, j).next);
    }
  }

  lemma SymbolsAre()
    ensures forall c :: Symbol(c) <==> c in "|();&<" || c == '>'
    ensures !Symbol('a') && !Symbol('+') && !Symbol('\0')
  {
  }

  class Parser {
    const line: string
    var pos: nat

    constructor (line: string)
      ensures this.line == line && pos == 0
    {
      this.line := line;
      pos := 0;
    }

    ghost predicate Valid()
      reads this
    {
      pos <= |line| && NoNul(line)
    }

    /** The tokens not read yet. */
    ghost function Left(): seq<Tok<Span>>
      requires Valid()
      reads this
    {
      Tokens(line, pos)
    }

    method SkipWhite(i: nat) returns (j: nat)
      requires i <= |line|
      ensures j == Skip(line, i)
    {
      j := i;
      while j < |line| && White(line[j])
        invariant i <= j <= |line| && Skip(line, i) == Skip(line, j)
      {
        j := j + 1;
      }
    }

    /** gettoken: takes the next token off the line. */
    method GetToken() returns (tok: char, q: nat, eq: nat)
      requires Valid()
      modifies this`pos
      ensures Valid()
      ensures old(Left()) == [] ==> tok == '\0' && Left() == []
      ensures old(Left()) != [] ==> Left() == old(Left())[1..] && tok == Kind(old(Left())[0]) && tok != '\0'
      ensures old(Left()) != [] && old(Left())[0].Word? ==> old(Left())[0].w == Span(q, eq)
      ensures old(Left()) != [] && old(Left())[0].Sym? ==> tok != 'a'
    {
      hide White, Symbol, Tokens;
      var s := SkipWhite(pos);
      ghost var i := s;
      NextToken(line, pos);
      q := s;
      tok := if s < |line| then line[s] else '\0';
      SymbolsAre();
      if tok == '\0' {
      } else if tok in "|();&<" {
        s := s + 1;
      } else if tok == '>' {
        s := s + 1;
        if s < |line| && line[s] == '>' {
          tok := '+';
          s := s + 1;
        }
      } else {
        tok := 'a';
        while s < |line| && !White(line[s]) && !Symbol(line[s])
          invariant i <= s <= |line| && WordEnd(line, i) == WordEnd(line, s)
        {
          s := s + 1;
        }
      }
      eq := s;
      SkipTwice(line, s);
      s := SkipWhite(s);
      pos := s;
    }

    /** peek: does the next token start with one of these symbols? */
    method Peek(toks: string) returns (yes: bool)
      requires Valid() && forall k :: 0 <= k < |toks| ==> Symbol(toks[k])
      modifies this`pos
      ensures Valid() && Left() == old(Left()) && yes == StartsIn(Left(), toks)
      ensures Left() == [] <==> pos == |line|
    {
      hide White, Symbol, Tokens;
      var s := SkipWhite(pos);
      SkipTwice(line, pos);
      NextToken(line, pos);
      SymbolsAre();
      pos := s;
      return s < |line| && line[s] in toks;
    }

    /** parseredirs: the redirections at the cursor, after those already found. */
    method ParseRedirs(done: seq<Target<Span>>) returns (ok: bool, to: seq<Target<Span>>)
      requires Valid()
      modifies this`pos
      ensures Valid() && |Left()| <= |old(Left())|
      ensures if ok then Ahead(done, Redirs(old(Left()))) == Found(to, Left()) else Redirs(old(Left())) == Missing
    {
      hide Redirs, Tokens, To, Symbol, Ahead;
      SymbolsAre();
      ghost var left0 := Left();
      to := done;
      var more := Peek("<>");
      while more
        invariant Valid() && |Left()| <= |left0| && more == StartsIn(Left(), "<>")
        invariant Ahead(done, Redirs(left0)) == Ahead(to, Redirs(Left()))
        decreases |Left()|
      {
        RedirStep(to, Left());
        AheadMissing(done, to, Redirs(left0), Redirs(Left()));
        var tok, _, _ := GetToken();
        var kind, q, eq := GetToken();
        if kind != 'a' {
          return false, [];
        }
        to := to + [To(tok, Span(q, eq))];
        more := Peek("<>");
      }
      NoMoreRedirs(to, Left());
      return true, to;
    }

    /** parseexec: words and redirections, or a block. */
    method ParseExec() returns (ok: bool, c: Cmd<Span>)
      requires Valid()
      modifies this`pos
      ensures Valid() && Follows(ExecOf(old(Left())), ok, c, Left())
      decreases |Left()|, 1
    {
      hide Redirs, Tokens, Args, Wrap, Symbol, ExecOf, BlockOf, LineOf;
      SymbolsAre();
      c := Exec([]);
      ghost var left0 := Left();
      ExecUnfold(left0);
      var block := Peek("(");
      if block {
        ok, c := ParseBlock();
        return;
      }
      var args: seq<Span> := [];
      var to: seq<Target<Span>>;
      ok, to := ParseRedirs([]);
      if !ok {
        return;
      }
      var stop := Peek("|)&;");
      while !stop
        invariant Valid() && |args| < MAXARGS && stop == StartsIn(Left(), "|)&;")
        invariant ExecOf(left0) == Args(args, to, Left())
        decreases |Left()|
      {
        ArgsUnfold(args, to, Left());
        var tok, q, eq := GetToken();
        if tok == '\0' {
          break;
        }
        if tok != 'a' {
          return false, c;
        }
        args := args + [Span(q, eq)];
        if |args| >= MAXARGS {
          return false, c;
        }
        ok, to := ParseRedirs(to);
        if !ok {
          return;
        }
        stop := Peek("|)&;");
      }
      ArgsUnfold(args, to, Left());
      return true, Wrap(Exec(args), to);
    }

    /** parsepipe: a command, or several joined by "|". */
    method ParsePipe() returns (ok: bool, c: Cmd<Span>)
      requires Valid()
      modifies this`pos
      ensures Valid() && Follows(PipeOf(old(Left())), ok, c, Left())
      decreases |Left()|, 2
    {
      hide Tokens, Symbol, ExecOf;
      SymbolsAre();
      ok, c := ParseExec();
      if !ok {
        return;
      }
      var bar := Peek("|");
      if bar {
        var tok, _, _ := GetToken();
        var right;
        ok, right := ParsePipe();
        c := Pipe(c, right);
      }
    }

    /** parseline: pipelines, in the background or one after the other. */
    method ParseLine() returns (ok: bool, c: Cmd<Span>)
      requires Valid()
      modifies this`pos
      ensures Valid() && Follows(LineOf(old(Left())), ok, c, Left())
      decreases |Left()|, 4
    {
      hide Tokens, Symbol, PipeOf;
      SymbolsAre();
      ghost var left0 := Left();
      ok, c := ParsePipe();
      if !ok {
        return;
      }
      var amp := Peek("&");
      while amp
        invariant Valid() && |Left()| <= |left0| && amp == StartsIn(Left(), "&")
        invariant LineOf(left0) == TailOf(c, Left())
        decreases |Left()|
      {
        var tok, _, _ := GetToken();
        c := Back(c);
        amp := Peek("&");
      }
      var semi := Peek(";");
      if semi {
        var tok, _, _ := GetToken();
        var right;
        ok, right := ParseLine();
        c := List(c, right);
      }
    }

    /** parseblock: a parenthesised line and its redirections. */
    method ParseBlock() returns (ok: bool, c: Cmd<Span>)
      requires Valid() && Is(Left(), '(')
      modifies this`pos
      ensures Valid() && Follows(BlockOf(old(Left())), ok, c, Left())
      decreases |Left()|, 0
    {
      hide Redirs, Tokens, Wrap, Symbol, LineOf;
      SymbolsAre();
      c := Exec([]);
      var open := Peek("(");
      var tok, _, _ := GetToken();
      var inner;
      ok, inner := ParseLine();
      if !ok {
        return;
      }
      var close := Peek(")");
      if !close {
        return false, c;
      }
      var paren, _, _ := GetToken();
      var to;
      AheadNone(Redirs(Left()));
      ok, to := ParseRedirs([]);
      if ok {
        c := Wrap(inner, to);
      }
    }
  }

  // ---- ending the words ----

  ghost function ArgEnds(ws: seq<Span>): set<nat> {
    if ws == [] then {} else ArgEnds(ws[..|ws| - 1]) + {ws[|ws| - 1].e}
  }

  /** Where the words of a tree end. */
  ghost function Ends(c: Cmd<Span>): set<nat> {
    match c
    case Exec(args) => ArgEnds(args)
    case Redir(d, to) => Ends(d) + {to.file.e}
    case Pipe(l, r) => Ends(l) + Ends(r)
    case List(l, r) => Ends(l) + Ends(r)
    case Back(d) => Ends(d)
  }

  ghost predicate Below(ends: set<nat>, n: nat) {
    forall k :: k in ends ==> k < n
  }

  /** The buffer with a NUL at each of these places. */
  ghost predicate Nulled(before: seq<char>, after: seq<char>, ends: set<nat>) {
    && |after| == |before|
    && forall k :: 0 <= k < |before| ==> after[k] == if k in ends then '\0' else before[k]
  }

  lemma NulledTwice(a: seq<char>, b: seq<char>, c: seq<char>, e: set<nat>, f: set<nat>)
    requires Nulled(a, b, e) && Nulled(b, c, f)
    ensures Nulled(a, c, e + f)
  {
  }

  lemma NulledOne(a: seq<char>, k: nat)
    requires k < |a|
    ensures Nulled(a, a[k := '\0'], {k})
  {
  }

  lemma {:induction false} ArgEndsHas(ws: seq<Span>, i: nat)
    requires i < |ws|
    ensures ws[i].e in ArgEnds(ws)
  {
    if i < |ws| - 1 {
      ArgEndsHas(ws[..|ws| - 1], i);
    }
  }

  method NulArgs(buf: array<char>, args: seq<Span>)
    requires Below(ArgEnds(args), buf.Length)
    modifies buf
    ensures Nulled(old(buf[..]), buf[..], ArgEnds(args))
  {
    ghost var s0 := buf[..];
    var i := 0;
    while i < |args|
      invariant 0 <= i <= |args| && Nulled(s0, buf[..], ArgEnds(args[..i]))
    {
      ghost var s1 := buf[..];
      ArgEndsHas(args, i);
      buf[args[i].e] := '\0';
      NulledOne(s1, args[i].e);
      assert buf[..] == s1[args[i].e := '\0'];
      NulledTwice(s0, s1, buf[..], ArgEnds(args[..i]), {args[i].e});
      assert args[..i + 1][..i] == args[..i];
      i := i + 1;
    }
    assert args[..|args|] == args;
  }

  /** nulterminate: writes a NUL after every word of the tree, and nothing else. */
  method Nulterminate(buf: array<char>, c: Cmd<Span>)
    requires Below(Ends(c), buf.Length)
    modifies buf
    ensures Nulled(old(buf[..]), buf[..], Ends(c))
    decreases c
  {
    hide Nulled, ArgEnds;
    ghost var s0 := buf[..];
    match c
    case Exec(args) =>
      NulArgs(buf, args);
    case Redir(d, to) =>
      Nulterminate(buf, d);
      ghost var s1 := buf[..];
      buf[to.file.e] := '\0';
      NulledOne(s1, to.file.e);
      assert buf[..] == s1[to.file.e := '\0'];
      NulledTwice(s0, s1, buf[..], Ends(d), {to.file.e});
    case Pipe(l, r) =>
      Nulterminate(buf, l);
      ghost var s1 := buf[..];
      Nulterminate(buf, r);
      NulledTwice(s0, s1, buf[..], Ends(l), Ends(r));
    case List(l, r) =>
      Nulterminate(buf, l);
      ghost var s1 := buf[..];
      Nulterminate(buf, r);
      NulledTwice(s0, s1, buf[..], Ends(l), Ends(r));
    case Back(d) =>
      Nulterminate(buf, d);
  }

  /** The C string at i: up to the first NUL. */
  function CString(b: seq<char>, i: nat): string
    decreases |b| - i
  {
    if i >= |b| || b[i] == '\0' then "" else [b[i]] + CString(b, i + 1)
  }

  lemma {:induction false} CStringIs(b: seq<char>, i: nat, e: nat)
    requires i <= e < |b| && b[e] == '\0' && forall k :: i <= k < e ==> b[k] != '\0'
    ensures CString(b, i) == b[i..e]
    decreases e - i
  {
    if i < e {
      CStringIs(b, i + 1, e);
      assert b[i..e] == [b[i]] + b[i + 1..e];
    }
  }

  /** A word does not end inside another. */
  lemma NotInside(s: string, v: Span, w: Span)
    requires WordSpan(s, v) && WordSpan(s, w)
    ensures !(w.b <= v.e < w.e)
  {
    hide Special;
  }

  lemma SpanFits(s: string, w: Span)
    requires WordSpan(s, w)
    ensures w.b < w.e <= |s|
  {
  }

  lemma {:induction false} ArgsApart(s: string, ws: seq<Span>, w: Span)
    requires WordSpan(s, w) && forall v :: v in multiset(ws) ==> WordSpan(s, v)
    ensures Below(ArgEnds(ws), |s| + 1) && forall k :: w.b <= k < w.e ==> k !in ArgEnds(ws)
    ensures forall v :: v in multiset(ws) ==> v.e in ArgEnds(ws)
  {
    hide Special, WordSpan;
    if ws != [] {
      var n := |ws| - 1;
      assert ws == ws[..n] + [ws[n]];
      ArgsApart(s, ws[..n], w);
      assert WordSpan(s, ws[n]);
      NotInside(s, ws[n], w);
      SpanFits(s, ws[n]);
    }
  }

  lemma {:induction false} EndsApart(s: string, c: Cmd<Span>, w: Span)
    requires WordSpan(s, w) && forall v :: v in WordsIn(c) ==> WordSpan(s, v)
    ensures Below(Ends(c), |s| + 1) && forall k :: w.b <= k < w.e ==> k !in Ends(c)
    ensures forall v :: v in WordsIn(c) ==> v.e in Ends(c)
  {
    hide Special, WordSpan, ArgEnds;
    match c
    case Exec(args) =>
      ArgsApart(s, args, w);
    case Redir(d, to) =>
      assert to.file in WordsIn(c);
      EndsApart(s, d, w);
      NotInside(s, to.file, w);
      SpanFits(s, to.file);
    case Pipe(l, r) =>
      EndsApart(s, l, w);
      EndsApart(s, r, w);
    case List(l, r) =>
      EndsApart(s, l, w);
      EndsApart(s, r, w);
    case Back(d) =>
      EndsApart(s, d, w);
  }

  /** Each word of a parsed line, read as a C string once the ends are written, is its text, and no
      byte of it has changed. */
  lemma WordReads(s: string, a: seq<char>, b: seq<char>, c: Cmd<Span>, w: Span)
    requires (forall v :: v in WordsIn(c) ==> WordSpan(s, v)) && w in WordsIn(c)
    requires |a| > |s| && a[..|s|] == s && Nulled(a, b, Ends(c))
    ensures CString(b, w.b) == Text(s, w) == Text(b, w)
  {
    hide White, Symbol, Ends, WordsIn;
    assert WordSpan(s, w);
    EndsApart(s, c, w);
    forall k | w.b <= k < w.e
      ensures b[k] == s[k] && b[k] != '\0'
    {
      assert a[k] == a[..|s|][k];
    }
    assert b[w.e] == '\0';
    CStringIs(b, w.b, w.e);
    assert b[w.b..w.e] == s[w.b..w.e];
  }

  // A tree's words as C strings in a buffer: what execution will see.
  function ReadArgs(b: seq<char>, ws: seq<Span>): seq<string> {
    if ws == [] then [] else ReadArgs(b, ws[..|ws| - 1]) + [CString(b, ws[|ws| - 1].b)]
  }

  function ReadCmd(b: seq<char>, c: Cmd<Span>): Cmd<string> {
    match c
    case Exec(args) => Exec(ReadArgs(b, args))
    case Redir(d, to) => Redir(ReadCmd(b, d), Target(CString(b, to.file.b), to.mode, to.fd))
    case Pipe(l, r) => Pipe(ReadCmd(b, l), ReadCmd(b, r))
    case List(l, r) => List(ReadCmd(b, l), ReadCmd(b, r))
    case Back(d) => Back(ReadCmd(b, d))
  }

  lemma {:induction false} ReadArgsIs(s: string, b: seq<char>, ws: seq<Span>)
    requires forall w :: w in multiset(ws) ==> CString(b, w.b) == Text(s, w)
    ensures ReadArgs(b, ws) == TextArgs(s, ws)
  {
    if ws != [] {
      var n := |ws| - 1;
      assert ws == ws[..n] + [ws[n]];
      ReadArgsIs(s, b, ws[..n]);
    }
  }

  lemma {:induction false} ReadCmdIs(s: string, b: seq<char>, c: Cmd<Span>)
    requires forall w :: w in WordsIn(c) ==> CString(b, w.b) == Text(s, w)
    ensures ReadCmd(b, c) == CmdText(s, c)
  {
    hide CString, Text;
    match c
    case Exec(args) =>
      ReadArgsIs(s, b, args);
    case Redir(d, to) =>
      assert to.file in WordsIn(c);
      ReadCmdIs(s, b, d);
    case Pipe(l, r) =>
      ReadCmdIs(s, b, l);
      ReadCmdIs(s, b, r);
    case List(l, r) =>
      ReadCmdIs(s, b, l);
      ReadCmdIs(s, b, r);
    case Back(d) =>
      ReadCmdIs(s, b, d);
  }

  lemma EndsFit(s: string, c: Cmd<Span>)
    requires forall v :: v in WordsIn(c) ==> WordSpan(s, v)
    ensures Below(Ends(c), |s| + 1)
    decreases c
  {
    hide WordSpan;
    match c
    case Exec(args) =>
      if args != [] {
        assert args[0] in multiset(args);
        ArgsApart(s, args, args[0]);
      }
    case Redir(d, to) =>
      assert to.file in WordsIn(c);
      EndsApart(s, c, to.file);
    case Pipe(l, r) =>
      EndsFit(s, l);
      EndsFit(s, r);
    case List(l, r) =>
      EndsFit(s, l);
      EndsFit(s, r);
    case Back(d) =>
      EndsFit(s, d);
  }

  lemma AllRead(s: string, a: seq<char>, b: seq<char>, c: Cmd<Span>)
    requires forall v :: v in WordsIn(c) ==> WordSpan(s, v)
    requires |a| > |s| && a[..|s|] == s && Nulled(a, b, Ends(c))
    ensures ReadCmd(b, c) == CmdText(s, c) && forall w :: w in WordsIn(c) ==> Text(b, w) == Text(s, w)
  {
    hide WordSpan, Nulled, Ends, WordsIn, Text, CString;
    forall w | w in WordsIn(c)
      ensures CString(b, w.b) == Text(s, w) == Text(b, w)
    {
      WordReads(s, a, b, c, w);
    }
    ReadCmdIs(s, b, c);
  }

  /** parsecmd: the whole line is parsed or refused; once parsed, every argument and file name stands in
      the buffer as the C string that was written there. */
  method ParseCmd(buf: array<char>, n: nat) returns (ok: bool, c: Cmd<Span>)
    requires n < buf.Length && buf[n] == '\0' && NoNul(buf[..n])
    modifies buf
    ensures ok == LineTree(old(buf[..n])).Ok?
    ensures ok ==> c == LineTree(old(buf[..n])).cmd
    ensures ok ==> Nulled(old(buf[..]), buf[..], Ends(c)) && ReadCmd(buf[..], c) == CmdText(old(buf[..n]), c)
    ensures ok ==> forall w :: w in WordsIn(c) ==> Text(buf[..], w) == Text(old(buf[..n]), w)
    ensures !ok ==> buf[..] == old(buf[..])
  {
    hide LineOf, Tokens, Ends, WordsIn, Text, ReadCmd, CmdText, Nulled, WordSpan, WellFormed;
    ghost var a := buf[..];
    var s := buf[..n];
    var p := new Parser(s);
    ok, c := p.ParseLine();
    if !ok {
      return;
    }
    var _ := p.Peek("");
    if p.pos != |s| {
      return false, c;
    }
    Accepted(s);
    EndsFit(s, c);
    Nulterminate(buf, c);
    AllRead(s, a, buf[..], c);
  }
}
