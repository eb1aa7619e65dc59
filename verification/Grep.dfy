/** The pattern matcher of grep.c: ^ . * $ after Kernighan and Pike. Strings are sequences
    of characters, without the terminating NUL.
 */
module Grep {

  // ---- what patterns mean ----

  /** A pattern character stands for itself or, if a period, for any character; once, or any
      number of times. */
  datatype Item = One(c: char) | Many(c: char)

  /** A pattern without its caret: items, and whether the text must end after them. */
  datatype Pattern = Pattern(items: seq<Item>, end: bool)

  /** A star makes the character before it repeat, whatever that is; a dollar sign means the end
      only as the last character; everything else stands for itself. */
  function Parse(re: string): Pattern {
    if re == "" then Pattern([], false)
    else if |re| >= 2 && re[1] == '*' then
      var p := Parse(re[2..]);
      Pattern([Many(re[0])] + p.items, p.end)
    else if re == "$" then Pattern([], true)
    else
      var p := Parse(re[1..]);
      Pattern([One(re[0])] + p.items, p.end)
  }

  predicate Fits(c: char, x: char) {
    c == '.' || c == x
  }

  predicate Piece(i: Item, w: string) {
    match i
    case One(c) => |w| == 1 && Fits(c, w[0])
    case Many(c) => forall k :: 0 <= k < |w| ==> Fits(c, w[k])
  }

  function Joined(ws: seq<string>): string {
    if ws == [] then "" else ws[0] + Joined(ws[1..])
  }

  /** The pieces ws, one for each item, make up a beginning of the text, or all of it. */
  ghost predicate Split(p: Pattern, text: string, ws: seq<string>) {
    && |ws| == |p.items|
    && (forall k :: 0 <= k < |ws| ==> Piece(p.items[k], ws[k]))
    && |Joined(ws)| <= |text| && Joined(ws) == text[..|Joined(ws)|]
    && (p.end ==> Joined(ws) == text)
  }

  /** The text begins with something the pattern describes. */
  ghost predicate Begins(p: Pattern, text: string) {
    exists ws :: Split(p, text, ws)
  }

  /** The text has something the pattern describes: at the start after a caret, else anywhere. */
  ghost predicate Matches(re: string, text: string) {
    if re != "" && re[0] == '^' then Begins(Parse(re[1..]), text)
    else exists i :: 0 <= i <= |text| && Begins(Parse(re), text[i..])
  }

  // ---- how matching unfolds ----

  lemma BeginsNothing(end: bool, text: string)
    ensures Begins(Pattern([], end), text) <==> (end ==> text == "")
  {
    if end ==> text == "" {
      assert Split(Pattern([], end), text, []);
    }
  }

  lemma BeginsOne(c: char, p: Pattern, text: string)
    ensures Begins(Pattern([One(c)] + p.items, p.end), text) <==>
            text != "" && Fits(c, text[0]) && Begins(p, text[1..])
  {
    var q := Pattern([One(c)] + p.items, p.end);
    if Begins(q, text) {
      var ws :| Split(q, text, ws);
      assert Joined(ws) == ws[0] + Joined(ws[1..]);
      assert text[..|Joined(ws)|][1..] == text[1..][..|Joined(ws[1..])|];
      assert forall k :: 0 <= k < |ws| - 1 ==> q.items[k + 1] == p.items[k] && Piece(q.items[k + 1], ws[k + 1]);
      assert Split(p, text[1..], ws[1..]);
    }
    if text != "" && Fits(c, text[0]) && Begins(p, text[1..]) {
      var ws :| Split(p, text[1..], ws);
      var vs := [text[..1]] + ws;
      assert vs[1..] == ws;
      assert Joined(vs) == text[..1] + Joined(ws);
      assert Split(q, text, vs);
    }
  }

  lemma ManyShorter(c: char, p: Pattern, text: string, ws: seq<string>)
    requires Split(Pattern([Many(c)] + p.items, p.end), text, ws) && ws[0] != ""
    ensures text != "" && Fits(c, text[0]) && Begins(Pattern([Many(c)] + p.items, p.end), text[1..])
  {
    var q := Pattern([Many(c)] + p.items, p.end);
    var vs := [ws[0][1..]] + ws[1..];
    assert vs[1..] == ws[1..];
    assert Joined(ws) == ws[0] + Joined(ws[1..]);
    assert Joined(vs) == ws[0][1..] + Joined(ws[1..]) == Joined(ws)[1..];
    assert ws[0][0] == text[0] && Piece(q.items[0], ws[0]);
    assert text[..|Joined(ws)|][1..] == text[1..][..|Joined(vs)|];
    assert forall k :: 1 <= k < |vs| ==> vs[k] == ws[k] && Piece(q.items[k], ws[k]);
    assert Split(q, text[1..], vs);
  }

  lemma ManyLonger(c: char, p: Pattern, text: string)
    requires text != "" && Fits(c, text[0]) && Begins(Pattern([Many(c)] + p.items, p.end), text[1..])
    ensures Begins(Pattern([Many(c)] + p.items, p.end), text)
  {
    var q := Pattern([Many(c)] + p.items, p.end);
    var ws :| Split(q, text[1..], ws);
    var vs := [text[..1] + ws[0]] + ws[1..];
    assert vs[1..] == ws[1..];
    assert Joined(ws) == ws[0] + Joined(ws[1..]);
    assert Joined(vs) == text[..1] + Joined(ws);
    assert Piece(q.items[0], ws[0]);
    assert forall k :: 1 <= k < |vs| ==> vs[k] == ws[k] && Piece(q.items[k], ws[k]);
    assert Split(q, text, vs);
  }

  lemma BeginsMany(c: char, p: Pattern, text: string)
    ensures var q := Pattern([Many(c)] + p.items, p.end);
            Begins(q, text) <==> Begins(p, text) || (text != "" && Fits(c, text[0]) && Begins(q, text[1..]))
  {
    var q := Pattern([Many(c)] + p.items, p.end);
    if Begins(q, text) {
      var ws :| Split(q, text, ws);
      assert Joined(ws) == ws[0] + Joined(ws[1..]);
      assert forall k :: 0 <= k < |ws| - 1 ==> q.items[k + 1] == p.items[k] && Piece(q.items[k + 1], ws[k + 1]);
      if ws[0] == "" {
        assert Joined(ws) == Joined(ws[1..]);
        assert Split(p, text, ws[1..]);
      } else {
        ManyShorter(c, p, text, ws);
      }
    }
    if Begins(p, text) {
      var ws :| Split(p, text, ws);
      var vs := [""] + ws;
      assert vs[1..] == ws;
      assert Joined(vs) == Joined(ws);
      assert Split(q, text, vs);
    }
    if text != "" && Fits(c, text[0]) && Begins(q, text[1..]) {
      ManyLonger(c, p, text);
    }
  }

  // ---- what that says of strings ----

  /** The word, character by character: a period stands for any character. */
  predicate Like(re: string, w: string) {
    |re| == |w| && forall k :: 0 <= k < |re| ==> re[k] == '.' || re[k] == w[k]
  }

  /** What a dollar sign at the end of a pattern adds. */
  function Tail(end: bool): string {
    if end then "$" else ""
  }

  /** Nothing in the pattern repeats, and a dollar sign that means the end is in its tail. */
  predicate Starless(re: string, end: bool) {
    '*' !in re && (!end && re != "" ==> re[|re| - 1] != '$')
  }

  /** The text begins like re; with a dollar sign after re it is no longer than that. */
  predicate Leads(re: string, end: bool, text: string) {
    |re| <= |text| && Like(re, text[..|re|]) && (end ==> |text| == |re|)
  }

  lemma ParseOne(re: string)
    requires re != "" && re != "$" && '*' !in re[1..]
    ensures var p := Parse(re[1..]); Parse(re) == Pattern([One(re[0])] + p.items, p.end)
  {
    if |re| >= 2 {
      assert re[1..][0] == re[1];
    }
  }

  lemma LeadsRest(re: string, end: bool, text: string)
    requires re != ""
    ensures Leads(re, end, text) <==>
            text != "" && (re[0] == '.' || re[0] == text[0]) && Leads(re[1..], end, text[1..])
  {
    if |re| <= |text| {
      var w := text[..|re|];
      assert w[1..] == text[1..][..|re| - 1];
      assert forall k :: 0 <= k < |re| - 1 ==> re[1..][k] == re[k + 1] && w[1..][k] == w[k + 1];
      if Like(re[1..], w[1..]) {
        assert forall k :: 1 <= k < |re| ==> re[k] == re[1..][k - 1] && w[k] == w[1..][k - 1];
      }
    }
  }

  /** A pattern without stars describes the texts that begin with its characters. */
  lemma {:induction false} StarlessBegins(re: string, end: bool, text: string)
    requires Starless(re, end)
    ensures Begins(Parse(re + Tail(end)), text) <==> Leads(re, end, text)
    decreases |re|
  {
    var all := re + Tail(end);
    if re == "" {
      assert all == Tail(end);
      BeginsNothing(end, text);
    } else {
      var rest := re[1..];
      assert all[1..] == rest + Tail(end);
      ParseOne(all);
      BeginsOne(re[0], Parse(all[1..]), text);
      LeadsRest(re, end, text);
      if text != "" {
        StarlessBegins(rest, end, text[1..]);
      }
    }
  }

  /** A star lets its character, or any characters after a period, repeat: the rest of the
      pattern goes on after some number of them. */
  lemma {:induction false} StarBegins(c: char, re: string, text: string)
    ensures Begins(Parse([c, '*'] + re), text) <==>
            exists n :: 0 <= n <= |text| && Begins(Parse(re), text[n..]) &&
                        forall k :: 0 <= k < n ==> c == '.' || c == text[k]
    decreases |text|
  {
    var p, q := Parse(re), Parse([c, '*'] + re);
    assert ([c, '*'] + re)[2..] == re;
    BeginsMany(c, p, text);
    assert text[0..] == text;
    if text != "" {
      StarBegins(c, re, text[1..]);
      if c == '.' || c == text[0] {
        if n: int :| 0 <= n <= |text| - 1 && Begins(p, text[1..][n..]) &&
                     forall k :: 0 <= k < n ==> c == '.' || c == text[1..][k]
        {
          assert text[1..][n..] == text[n + 1..];
          assert forall k :: 1 <= k < n + 1 ==> text[k] == text[1..][k - 1];
        }
      }
      if n: int :| 0 < n <= |text| && Begins(p, text[n..]) && forall k :: 0 <= k < n ==> c == '.' || c == text[k] {
        assert text[1..][n - 1..] == text[n..];
      }
    }
  }

  /** A pattern without caret and star matches the texts that have its characters somewhere, or at
      their end when a dollar sign follows. */
  lemma PlainMatches(re: string, end: bool, text: string)
    requires Starless(re, end) && (re != "" ==> re[0] != '^')
    ensures Matches(re + Tail(end), text) <==>
            exists i, j :: 0 <= i <= j <= |text| && Like(re, text[i..j]) && (end ==> j == |text|)
  {
    forall i | 0 <= i <= |text|
      ensures Begins(Parse(re + Tail(end)), text[i..]) <==> Leads(re, end, text[i..])
    {
      StarlessBegins(re, end, text[i..]);
    }
    if i: int :| 0 <= i <= |text| && Leads(re, end, text[i..]) {
      assert text[i..][..|re|] == text[i..i + |re|];
    }
    if i: int, j: int :| 0 <= i <= j <= |text| && Like(re, text[i..j]) && (end ==> j == |text|) {
      assert j == i + |re|;
      assert text[i..][..|re|] == text[i..i + |re|];
      assert Leads(re, end, text[i..]);
    }
  }

  /** After a caret the characters must be at the start. */
  lemma CaretMatches(re: string, end: bool, text: string)
    requires Starless(re, end)
    ensures Matches("^" + re + Tail(end), text) <==>
            |re| <= |text| && Like(re, text[..|re|]) && (end ==> |text| == |re|)
  {
    assert ("^" + re + Tail(end))[1..] == re + Tail(end);
    StarlessBegins(re, end, text);
  }

  // ---- the code ----

  /** matchstar: any number of c, then the rest of the pattern. */
  method MatchStar(c: char, re: string, text: string) returns (r: bool)
    ensures var p := Parse(re); r <==> Begins(Pattern([Many(c)] + p.items, p.end), text)
    decreases |re|, 2
  {
    ghost var p := Parse(re);
    ghost var q := Pattern([Many(c)] + p.items, p.end);
    var i := 0;
    while true
      invariant i <= |text| && (Begins(q, text) <==> Begins(q, text[i..]))
      decreases |text| - i
    {
      BeginsMany(c, p, text[i..]);
      r := MatchHere(re, text[i..]);
      if r {
        return true;
      }
      if i == |text| || !(text[i] == c || c == '.') {
        return false;
      }
      assert text[i..][1..] == text[i + 1..];
      i := i + 1;
    }
  }

  /** matchhere: the text begins with something the pattern describes. */
  method MatchHere(re: string, text: string) returns (r: bool)
    ensures r <==> Begins(Parse(re), text)
    decreases |re|, 1
  {
    BeginsNothing(false, text);
    BeginsNothing(true, text);
    if re == "" {
      return true;
    }
    if |re| >= 2 && re[1] == '*' {
      r := MatchStar(re[0], re[2..], text);
      return;
    }
    if re == "$" {
      return text == "";
    }
    BeginsOne(re[0], Parse(re[1..]), text);
    if text != "" && (re[0] == '.' || re[0] == text[0]) {
      r := MatchHere(re[1..], text[1..]);
      return;
    }
    return false;
  }

  /** match: exactly when the text has something the pattern describes. */
  method Match(re: string, text: string) returns (r: bool)
    ensures r <==> Matches(re, text)
  {
    if re != "" && re[0] == '^' {
      r := MatchHere(re[1..], text);
      return;
    }
    var i := 0;
    while true
      invariant i <= |text|
      invariant forall j :: 0 <= j < i ==> !Begins(Parse(re), text[j..])
      decreases |text| - i
    {
      r := MatchHere(re, text[i..]);
      if r {
        return true;
      }
      if i == |text| {
        return false;
      }
      i := i + 1;
    }
  }
}
