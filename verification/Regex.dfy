/** The backtracking matcher of the scheme kernel, against a declarative meaning of its patterns. */
module Regex {

  // ---------------------------------------------------------------- what a pattern means

  /** A pattern after an optional leading '^': single characters, starred ones, and a final '$'. */
  datatype Token = One(c: char) | Star(c: char) | End

  function Tokens(re: string): seq<Token>
    decreases |re|
  {
    if re == "" then []
    else if |re| >= 2 && re[1] == '*' then [Star(re[0])] + Tokens(re[2..])
    else if re == "$" then [End]
    else [One(re[0])] + Tokens(re[1..])
  }

  predicate Fits(c: char, x: char) {
    c == '.' || c == x
  }

  /** The strings a token stands for. */
  predicate Denotes(t: Token, w: string) {
    match t
    case One(c) => |w| == 1 && Fits(c, w[0])
    case Star(c) => forall i :: 0 <= i < |w| ==> Fits(c, w[i])
    case End => w == ""
  }

  function Concat(ws: seq<string>): string {
    if ws == [] then "" else ws[0] + Concat(ws[1..])
  }

  /** ws is a way to read a beginning of the text, or with '$' all of it, as the tokens. */
  ghost predicate Reading(ts: seq<Token>, ws: seq<string>, text: string) {
    && |ws| == |ts| && (forall i :: 0 <= i < |ts| ==> Denotes(ts[i], ws[i]))
    && Concat(ws) <= text && (End in ts ==> Concat(ws) == text)
  }

  ghost predicate Accepts(ts: seq<Token>, text: string) {
    exists ws :: Reading(ts, ws, text)
  }

  /** The whole pattern, searched for: '^' pins it to the start of the text. */
  ghost predicate Found(re: string, text: string) {
    if re != "" && re[0] == '^' then Accepts(Tokens(re[1..]), text)
    else exists i :: 0 <= i <= |text| && Accepts(Tokens(re), text[i..])
  }

  /** How patterns are read: c* is a starred character, a final $ the end, anything else stands for itself. */
  lemma TokensAre(c: char, re: string)
    ensures Tokens("") == [] && Tokens("$") == [End] && Tokens([c, '*'] + re) == [Star(c)] + Tokens(re)
    ensures [c] + re != "$" && (re == "" || re[0] != '*') ==> Tokens([c] + re) == [One(c)] + Tokens(re)
  {
    assert ([c, '*'] + re)[2..] == re && ([c] + re)[1..] == re;
  }

  /** A leading ^ pins the pattern to the start of the text; without it the text is searched. */
  lemma FoundIs(re: string, text: string)
    ensures Found("^" + re, text) <==> Accepts(Tokens(re), text)
    ensures re == "" || re[0] != '^' ==>
              (Found(re, text) <==> exists i :: 0 <= i <= |text| && Accepts(Tokens(re), text[i..]))
  {
    assert ("^" + re)[1..] == re;
  }

  /** A starred character takes any number of characters that are it, or any at all for '.'. */
  lemma {:induction false} AcceptsStar(c: char, ts: seq<Token>, text: string)
    ensures Accepts([Star(c)] + ts, text) <==>
            exists k :: 0 <= k <= |text| && Accepts(ts, text[k..]) && forall i :: 0 <= i < k ==>
              c == '.' || text[i] == c
  {
    AcceptsCons(Star(c), ts, text);
    hide Accepts;
    forall k ensures SplitAt(Star(c), ts, text, k) <==>
                     0 <= k <= |text| && Accepts(ts, text[k..]) && forall i :: 0 <= i < k ==> c == '.' || text[i] == c {
      if 0 <= k <= |text| {
        assert forall i :: 0 <= i < k ==> text[..k][i] == text[i];
      }
    }
  }

  // ---------------------------------------------------------------- the meaning, one token at a time

  /** The first token takes the first k characters and the others read the rest. */
  ghost predicate SplitAt(t: Token, ts: seq<Token>, text: string, k: int) {
    0 <= k <= |text| && Denotes(t, text[..k]) && Accepts(ts, text[k..])
  }

  lemma {:induction false} ReadingTail(t: Token, ts: seq<Token>, ws: seq<string>, text: string)
    requires t != End && Reading([t] + ts, ws, text)
    ensures SplitAt(t, ts, text, |ws[0]|)
  {
    var all, w, rest := [t] + ts, ws[0], ws[1..];
    assert Concat(ws) == w + Concat(rest);
    assert w <= text by {
      assert text[..|Concat(ws)|][..|w|] == w;
    }
    var k := |w|;
    assert all[0] == t;
    forall i | 0 <= i < |ts| ensures Denotes(ts[i], rest[i]) {
      assert all[i + 1] == ts[i];
    }
    assert Concat(rest) <= text[k..];
    assert End in ts ==> End in all;
    assert Reading(ts, rest, text[k..]);
  }

  lemma {:induction false} ReadingCons(t: Token, ts: seq<Token>, text: string, k: int)
    requires t != End && SplitAt(t, ts, text, k)
    ensures Accepts([t] + ts, text)
  {
    var rest :| Reading(ts, rest, text[k..]);
    var all, ws := [t] + ts, [text[..k]] + rest;
    assert ws[1..] == rest;
    assert Concat(ws) == text[..k] + Concat(rest);
    assert text == text[..k] + text[k..];
    forall i | 0 <= i < |all| ensures Denotes(all[i], ws[i]) {
      assert i > 0 ==> all[i] == ts[i - 1] && ws[i] == rest[i - 1];
    }
    assert End in all ==> End in ts;
    assert Reading(all, ws, text);
  }

  lemma {:induction false} AcceptsCons(t: Token, ts: seq<Token>, text: string)
    requires t != End
    ensures Accepts([t] + ts, text) <==> exists k :: SplitAt(t, ts, text, k)
  {
    if Accepts([t] + ts, text) {
      var ws :| Reading([t] + ts, ws, text);
      ReadingTail(t, ts, ws, text);
    }
    if k :| SplitAt(t, ts, text, k) {
      ReadingCons(t, ts, text, k);
    }
  }

  lemma {:induction false} AcceptsNone(text: string)
    ensures Accepts([], text)
  {
    assert Reading([], [], text);
  }

  lemma {:induction false} AcceptsEnd(text: string)
    ensures Accepts([End], text) <==> text == ""
  {
    if text == "" {
      var ws: seq<string> := [""];
      assert ws[1..] == [] && Concat(ws) == "";
      assert Reading([End], ws, text);
    }
    if Accepts([End], text) {
      var ws :| Reading([End], ws, text);
      assert Denotes([End][0], ws[0]);
      assert ws[1..] == [] && Concat(ws) == "";
      assert End in [End];
    }
  }

  lemma {:induction false} AcceptsOne(c: char, ts: seq<Token>, text: string)
    ensures Accepts([One(c)] + ts, text) <==> text != "" && (c == '.' || c == text[0]) && Accepts(ts, text[1..])
  {
    AcceptsCons(One(c), ts, text);
    if text != "" && Fits(c, text[0]) && Accepts(ts, text[1..]) {
      assert SplitAt(One(c), ts, text, 1);
    }
  }

  // ---------------------------------------------------------------- regex.c

  /** matchhere: does a beginning of the text fit the pattern? */
  method MatchHere(re: string, text: string) returns (r: bool)
    ensures r <==> Accepts(Tokens(re), text)
    decreases |re|, 0
  {
    hide Accepts;
    if re == "" {
      AcceptsNone(text);
      return true;
    }
    if |re| >= 2 && re[1] == '*' {
      r := MatchStar(re[0], re[2..], text);
      return;
    }
    if re[0] == '$' && |re| == 1 {
      assert re == "$";
      AcceptsEnd(text);
      return text == "";
    }
    AcceptsOne(re[0], Tokens(re[1..]), text);
    if text != "" && (re[0] == '.' || re[0] == text[0]) {
      r := MatchHere(re[1..], text[1..]);
      return;
    }
    return false;
  }

  /** matchstar: zero characters that fit c, or one, or two, and so on, then the rest. */
  method MatchStar(c: char, re: string, text: string) returns (r: bool)
    ensures r <==> Accepts([Star(c)] + Tokens(re), text)
    decreases |re|, 1
  {
    var i := 0;
    AcceptsCons(Star(c), Tokens(re), text);
    hide Accepts;
    while true
      invariant 0 <= i <= |text| && Denotes(Star(c), text[..i])
      invariant forall k :: 0 <= k < i ==> !Accepts(Tokens(re), text[k..])
      decreases |text| - i
    {
      var here := MatchHere(re, text[i..]);
      if here {
        assert SplitAt(Star(c), Tokens(re), text, i);
        return true;
      }
      if i == |text| || !(text[i] == c || c == '.') {
        break;
      }
      i := i + 1;
    }
    NoSplit(c, Tokens(re), text, i);
    return false;
  }

  lemma {:induction false} NoSplit(c: char, ts: seq<Token>, text: string, i: nat)
    requires i <= |text| && (i == |text| || !Fits(c, text[i]))
    requires forall k :: 0 <= k <= i ==> !Accepts(ts, text[k..])
    ensures forall k :: !SplitAt(Star(c), ts, text, k)
  {
    forall k ensures !SplitAt(Star(c), ts, text, k) {
      if i < k <= |text| {
        assert text[..k][i] == text[i];
      }
    }
  }

  /** match: exactly when the pattern is found somewhere in the text. */
  method Match(re: string, text: string) returns (r: bool)
    ensures r <==> Found(re, text)
  {
    hide Accepts;
    if re != "" && re[0] == '^' {
      r := MatchHere(re[1..], text);
      return;
    }
    var i := 0;
    while true
      invariant 0 <= i <= |text|
      invariant forall k :: 0 <= k < i ==> !Accepts(Tokens(re), text[k..])
      decreases |text| - i
    {
      var here := MatchHere(re, text[i..]);
      if here {
        return true;
      }
      if i == |text| {
        break;
      }
      i := i + 1;
    }
    return false;
  }
}
