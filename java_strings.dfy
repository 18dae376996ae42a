/**
  The two pieces of java.lang.String the server relies on when it parses a
  command frame: `split(" ")` (a single-space separator, consecutive spaces
  giving empty tokens, trailing empty tokens dropped) and the StringBuilder
  idiom "every token followed by one space".
 */
module JavaStrings {

  /** Every piece of `s` between single spaces, first to last, none dropped. */
  function SplitAll(s: string): (r: seq<string>)
    ensures |r| >= 1
  {
    if s == [] then [""] else Extend(SplitAll(s[..|s| - 1]), s[|s| - 1])
  }

  /** The pieces of `t + [c]` from those of `t`: a new empty piece after a space, a longer last piece otherwise. */
  function Extend(pieces: seq<string>, c: char): (r: seq<string>)
    requires |pieces| >= 1
    ensures |r| >= 1
  {
    if c == ' ' then pieces + [""]
    else pieces[..|pieces| - 1] + [pieces[|pieces| - 1] + [c]]
  }

  /** Removes the empty strings at the end of `ts` (a limit of 0 in Java's split). */
  function DropTrailingEmpty(ts: seq<string>): (r: seq<string>)
    ensures |r| <= |ts| && r == ts[..|r|]
    ensures r != [] ==> r[|r| - 1] != ""
    ensures forall i :: |r| <= i < |ts| ==> ts[i] == ""
  {
    if ts != [] && ts[|ts| - 1] == "" then DropTrailingEmpty(ts[..|ts| - 1]) else ts
  }

  /**
    `s.split(" ")`: a string without a space comes back whole (even the empty
    one); otherwise no token holds a space and the last token is never empty.
   */
  function JavaSplit(s: string): (r: seq<string>)
    ensures ' ' !in s ==> r == [s]
    ensures forall i :: 0 <= i < |r| ==> ' ' !in r[i]
    ensures ' ' in s && r != [] ==> r[|r| - 1] != ""
  {
    SplitAllHasNoSpaces(s);
    if ' ' !in s then [s] else DropTrailingEmpty(SplitAll(s))
  }

  /** The tokens joined with one space between neighbours. */
  function Join(ts: seq<string>): string
    requires ts != []
  {
    if |ts| == 1 then ts[0] else Join(ts[..|ts| - 1]) + " " + ts[|ts| - 1]
  }

  /** Each token followed by one space, as a StringBuilder loop appends them. */
  function SpaceTerminated(ts: seq<string>): string
  {
    if ts == [] then "" else SpaceTerminated(ts[..|ts| - 1]) + ts[|ts| - 1] + " "
  }

  /** `s` without its trailing spaces. */
  function StripTrailingSpaces(s: string): (r: string)
    ensures |r| <= |s| && r == s[..|r|]
    ensures r != [] ==> r[|r| - 1] != ' '
    ensures forall i :: |r| <= i < |s| ==> s[i] == ' '
  {
    if s != [] && s[|s| - 1] == ' ' then StripTrailingSpaces(s[..|s| - 1]) else s
  }

  /** No piece of a split holds the separator. */
  lemma {:induction false} SplitAllHasNoSpaces(s: string)
    ensures forall i :: 0 <= i < |SplitAll(s)| ==> ' ' !in SplitAll(s)[i]
  {
    if s != [] {
      SplitAllHasNoSpaces(s[..|s| - 1]);
    }
  }

  /** Joining the pieces of a split gives back the string. */
  lemma {:induction false} JoinSplitAll(s: string)
    ensures Join(SplitAll(s)) == s
  {
    if s != [] {
      var t := s[..|s| - 1];
      var init := SplitAll(t);
      JoinSplitAll(t);
      assert s == t + [s[|s| - 1]];
      if s[|s| - 1] == ' ' {
        assert (init + [""])[..|init|] == init;
      } else {
        var last := init[|init| - 1];
        var r := init[..|init| - 1] + [last + [s[|s| - 1]]];
        if |init| > 1 {
          assert r[..|r| - 1] == init[..|init| - 1];
          assert Join(init) == Join(init[..|init| - 1]) + " " + last;
        }
      }
    }
  }

  /**
    What survives Java's removal of trailing empty tokens is exactly the
    string without its trailing spaces: nothing at all when the string is
    only spaces, otherwise tokens that join back to the stripped string.
   */
  lemma {:induction false} DropTrailingEmptyStrips(s: string)
    ensures DropTrailingEmpty(SplitAll(s)) == [] <==> StripTrailingSpaces(s) == ""
    ensures DropTrailingEmpty(SplitAll(s)) != [] ==>
              Join(DropTrailingEmpty(SplitAll(s))) == StripTrailingSpaces(s)
  {
    if s != [] {
      var t := s[..|s| - 1];
      if s[|s| - 1] == ' ' {
        DropTrailingEmptyStrips(t);
        assert (SplitAll(t) + [""])[..|SplitAll(t)|] == SplitAll(t);
      } else {
        var r := SplitAll(s);
        assert r[|r| - 1] != "";
        JoinSplitAll(s);
      }
    }
  }

  /** Java's split drops only trailing spaces: the tokens join back to the stripped string. */
  lemma JavaSplitJoin(s: string)
    ensures JavaSplit(s) == [] <==> (s != "" && forall i :: 0 <= i < |s| ==> s[i] == ' ')
    ensures JavaSplit(s) != [] ==> Join(JavaSplit(s)) == StripTrailingSpaces(s)
  {
    if ' ' in s {
      DropTrailingEmptyStrips(s);
    } else {
      assert StripTrailingSpaces(s) == s;
    }
  }

  /** The StringBuilder loop and the single-space join differ by one trailing space. */
  lemma {:induction false} SpaceTerminatedIsJoinPlusSpace(ts: seq<string>)
    requires ts != []
    ensures SpaceTerminated(ts) == Join(ts) + " "
  {
    if |ts| > 1 {
      SpaceTerminatedIsJoinPlusSpace(ts[..|ts| - 1]);
    } else {
      assert ts[..0] == [];
    }
  }

  /** A string without a space is a single piece. */
  lemma {:induction false} SplitAllWithoutSpace(s: string)
    requires ' ' !in s
    ensures SplitAll(s) == [s]
  {
    if s != [] {
      assert ' ' !in s[..|s| - 1];
      SplitAllWithoutSpace(s[..|s| - 1]);
      assert s[..|s| - 1] + [s[|s| - 1]] == s;
    }
  }

  /** Splitting at one space splits the two sides independently. */
  lemma {:induction false} SplitAllConcat(a: string, b: string)
    ensures SplitAll(a + " " + b) == SplitAll(a) + SplitAll(b)
  {
    if b == [] {
      SplitAllSnoc(a, ' ');
      assert a + " " + b == a + [' '];
    } else {
      var b' := b[..|b| - 1];
      var c := b[|b| - 1];
      SplitAllConcat(a, b');
      SplitAllConcatStep(a, b', c);
      assert b' + [c] == b;
    }
  }

  /** The inductive step of SplitAllConcat, one character appended to `b`. */
  lemma SplitAllConcatStep(a: string, b: string, c: char)
    requires SplitAll(a + " " + b) == SplitAll(a) + SplitAll(b)
    ensures SplitAll(a + " " + (b + [c])) == SplitAll(a) + SplitAll(b + [c])
  {
    var u := a + " " + b;
    assert a + " " + (b + [c]) == u + [c];
    SplitAllSnoc(u, c);
    SplitAllSnoc(b, c);
    ExtendAfter(SplitAll(a), SplitAll(b), c);
  }

  /** Extending a list of pieces only touches its end. */
  lemma ExtendAfter(x: seq<string>, y: seq<string>, c: char)
    requires |y| >= 1
    ensures Extend(x + y, c) == x + Extend(y, c)
  {
    if c != ' ' {
      assert (x + y)[..|x + y| - 1] == x + y[..|y| - 1];
    }
  }

  /** SplitAll unfolded once at the end of its argument. */
  lemma SplitAllSnoc(t: string, c: char)
    ensures SplitAll(t + [c]) == Extend(SplitAll(t), c)
  {
    assert (t + [c])[..|t|] == t;
  }

  /** Trailing empty tokens after a non-empty one are all that Java drops. */
  lemma {:induction false} DropTrailingEmptyAfter(xs: seq<string>, ys: seq<string>)
    requires xs != [] && xs[|xs| - 1] != ""
    ensures DropTrailingEmpty(xs + ys) == xs + DropTrailingEmpty(ys)
  {
    if ys != [] && ys[|ys| - 1] == "" {
      assert (xs + ys)[..|xs + ys| - 1] == xs + ys[..|ys| - 1];
      DropTrailingEmptyAfter(xs, ys[..|ys| - 1]);
    }
  }

  /**
    The tokens of `w + " " + to + " " + text`, for a command word `w` and a
    target `to` that hold no space, are `w`, `to`, and then the tokens of
    `text` that Java keeps.
   */
  lemma TwoWordsThenText(w: string, to: string, text: string)
    requires w != "" && ' ' !in w && to != "" && ' ' !in to
    ensures JavaSplit(w + " " + to + " " + text) == [w, to] + DropTrailingEmpty(SplitAll(text))
  {
    var s := w + " " + to + " " + text;
    assert s[|w|] == ' ';
    SplitTwoWordsThenText(w, to, text);
    DropTrailingEmptyAfter([w, to], SplitAll(text));
  }

  /** The pieces of `w + " " + to + " " + text`, for words without a space. */
  lemma SplitTwoWordsThenText(w: string, to: string, text: string)
    requires ' ' !in w && ' ' !in to
    ensures SplitAll(w + " " + to + " " + text) == [w, to] + SplitAll(text)
  {
    assert w + " " + to + " " + text == (w + " " + to) + " " + text;
    SplitAllConcat(w + " " + to, text);
    SplitAllConcat(w, to);
    SplitAllWithoutSpace(w);
    SplitAllWithoutSpace(to);
  }

  /**
    For such a command, there are at least three tokens exactly when the text
    is not blank, and the StringBuilder body built from the tokens after the
    target is the text without its trailing spaces, followed by one space.
   */
  lemma CommandWithTwoWords(w: string, to: string, text: string)
    requires w != "" && ' ' !in w && to != "" && ' ' !in to
    ensures var tokens := JavaSplit(w + " " + to + " " + text);
      && |tokens| >= 2 && tokens[0] == w && tokens[1] == to
      && (|tokens| >= 3 <==> StripTrailingSpaces(text) != "")
      && SpaceTerminated(tokens[2..]) ==
           if StripTrailingSpaces(text) == "" then "" else StripTrailingSpaces(text) + " "
  {
    TwoWordsThenText(w, to, text);
    var tokens := JavaSplit(w + " " + to + " " + text);
    var rest := DropTrailingEmpty(SplitAll(text));
    assert tokens[2..] == rest;
    DropTrailingEmptyStrips(text);
    if rest != [] {
      SpaceTerminatedIsJoinPlusSpace(rest);
    }
  }

  /**
    `p` is the longest prefix of `s` without a space, and it is all of `s`
    exactly when `s` splits into `count` = 1 piece.
   */
  ghost predicate IsFirstPiece(p: string, s: string, count: nat)
  {
    && |p| <= |s| && p == s[..|p|] && ' ' !in p && (|p| == |s| || s[|p|] == ' ')
    && (count == 1 ==> p == s)
    && (count > 1 ==> |p| < |s|)
  }

  /** The first piece of a split is the longest prefix without a space. */
  lemma {:induction false} FirstPiece(s: string)
    ensures IsFirstPiece(SplitAll(s)[0], s, |SplitAll(s)|)
  {
    if s != [] {
      FirstPiece(s[..|s| - 1]);
      FirstPieceStep(s);
    }
  }

  /** The inductive step of FirstPiece: from `s` without its last character to `s`. */
  lemma FirstPieceStep(s: string)
    requires s != []
    requires var pieces := SplitAll(s[..|s| - 1]); IsFirstPiece(pieces[0], s[..|s| - 1], |pieces|)
    ensures IsFirstPiece(SplitAll(s)[0], s, |SplitAll(s)|)
  {
    var pieces := SplitAll(s[..|s| - 1]);
    if s[|s| - 1] == ' ' {
      FirstPieceAfterSpace(pieces[0], s, |pieces|);
    } else if |pieces| == 1 {
      FirstPieceGrows(pieces[0], s);
    } else {
      FirstPieceStays(pieces[0], s, |pieces|);
    }
  }

  /** A space at the end starts a new piece and leaves the first one alone. */
  lemma FirstPieceAfterSpace(p: string, s: string, count: nat)
    requires s != [] && s[|s| - 1] == ' '
    requires IsFirstPiece(p, s[..|s| - 1], count) && count >= 1
    ensures IsFirstPiece(p, s, count + 1)
  {
    assert s[..|p|] == s[..|s| - 1][..|p|];
  }

  /** Another character at the end of a single piece lengthens it. */
  lemma FirstPieceGrows(p: string, s: string)
    requires s != [] && s[|s| - 1] != ' '
    requires IsFirstPiece(p, s[..|s| - 1], 1)
    ensures IsFirstPiece(p + [s[|s| - 1]], s, 1)
  {
    assert p + [s[|s| - 1]] == s;
  }

  /** Another character at the end of a later piece leaves the first one alone. */
  lemma FirstPieceStays(p: string, s: string, count: nat)
    requires s != [] && IsFirstPiece(p, s[..|s| - 1], count) && count > 1
    ensures IsFirstPiece(p, s, count)
  {
    assert s[..|p|] == s[..|s| - 1][..|p|];
  }

  /**
    A frame that does not start with a space has a first token, and that token
    is the frame up to its first space: it is never empty.
   */
  lemma FirstToken(s: string)
    requires s != "" && s[0] != ' '
    ensures var tokens := JavaSplit(s);
      && tokens != [] && tokens[0] != ""
      && |tokens[0]| <= |s| && tokens[0] == s[..|tokens[0]|] && ' ' !in tokens[0]
      && (|tokens[0]| == |s| || s[|tokens[0]|] == ' ')
  {
    JavaSplitJoin(s);
    FirstPiece(s);
    if ' ' !in s {
      SplitAllWithoutSpace(s);
    }
  }
}
