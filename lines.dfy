/** Splitting a stack trace into lines the way `Pattern.split` does for the
    newline pattern with limit 0: when the input holds no newline the result is
    the input alone; otherwise it is the pieces between newlines with the
    trailing empty pieces removed. */
module Lines {

  const Newline: char := '\n'

  /** The pieces joined back together with a newline between neighbours. */
  function Join(pieces: seq<string>): string
  {
    if |pieces| == 0 then ""
    else if |pieces| == 1 then pieces[0]
    else Join(pieces[..|pieces| - 1]) + [Newline] + pieces[|pieces| - 1]
  }

  predicate NoNewline(s: string)
  {
    forall i :: 0 <= i < |s| ==> s[i] != Newline
  }

  predicate AllNewlines(s: string)
  {
    forall i :: 0 <= i < |s| ==> s[i] == Newline
  }

  /** Every piece of the input between newlines, empty ones included. */
  function Pieces(s: string): (r: seq<string>)
    ensures |r| >= 1
    ensures forall k :: 0 <= k < |r| ==> NoNewline(r[k])
    ensures NoNewline(s) ==> r == [s]
  {
    if |s| == 0 then [""]
    else
      var p := Pieces(s[..|s| - 1]);
      var c := s[|s| - 1];
      assert s == s[..|s| - 1] + [c];
      if c == Newline then p + [""]
      else p[..|p| - 1] + [p[|p| - 1] + [c]]
  }

  /** The pieces without the empty ones at the end. */
  function DropTrailingEmpty(pieces: seq<string>): (r: seq<string>)
    ensures |r| <= |pieces| && r == pieces[..|r|]
    ensures |r| > 0 ==> r[|r| - 1] != ""
    ensures forall k :: |r| <= k < |pieces| ==> pieces[k] == ""
  {
    if |pieces| > 0 && pieces[|pieces| - 1] == "" then DropTrailingEmpty(pieces[..|pieces| - 1])
    else pieces
  }

  /** The lines `split` yields for a stack trace. */
  function Split(s: string): (r: seq<string>)
    ensures forall k :: 0 <= k < |r| ==> NoNewline(r[k])
    ensures NoNewline(s) ==> r == [s]
    ensures !NoNewline(s) ==> |r| == 0 || r[|r| - 1] != ""
  {
    if NoNewline(s) then [s] else DropTrailingEmpty(Pieces(s))
  }

  lemma {:induction false} JoinSnoc(q: seq<string>, x: string)
    requires |q| > 0
    ensures Join(q + [x]) == Join(q) + [Newline] + x
  {
    assert (q + [x])[..|q|] == q;
  }

  lemma {:induction false} JoinAppendChar(q: seq<string>, x: string, c: char)
    ensures Join(q + [x + [c]]) == Join(q + [x]) + [c]
  {
    if |q| > 0 {
      JoinSnoc(q, x + [c]);
      JoinSnoc(q, x);
    }
  }

  /** Joining the pieces gives back the input. */
  lemma {:induction false} JoinPieces(s: string)
    ensures Join(Pieces(s)) == s
  {
    if |s| > 0 {
      var s', c := s[..|s| - 1], s[|s| - 1];
      assert s == s' + [c];
      var p := Pieces(s');
      JoinPieces(s');
      if c == Newline {
        assert Pieces(s) == p + [""];
        JoinSnoc(p, "");
      } else {
        var q, last := p[..|p| - 1], p[|p| - 1];
        assert Pieces(s) == q + [last + [c]];
        assert q + [last] == p;
        JoinAppendChar(q, last, c);
        assert Join(q + [last]) == s';
      }
    }
  }

  /** Removing trailing empty pieces removes only newlines from the end of the join. */
  lemma {:induction false} JoinDropTrailingEmpty(pieces: seq<string>)
    ensures var j := Join(DropTrailingEmpty(pieces));
      |j| <= |Join(pieces)| && j == Join(pieces)[..|j|] && AllNewlines(Join(pieces)[|j|..])
  {
    if |pieces| > 0 && pieces[|pieces| - 1] == "" {
      var p' := pieces[..|pieces| - 1];
      JoinDropTrailingEmpty(p');
      assert DropTrailingEmpty(pieces) == DropTrailingEmpty(p');
      if |pieces| == 1 {
        assert Join(pieces) == "";
      } else {
        assert Join(pieces) == Join(p') + [Newline];
      }
    }
  }

  /** The split lines, joined with newlines, are the input up to a run of
      newlines at its end: the split loses nothing but trailing empty lines. */
  lemma {:induction false} SplitRecoversInput(s: string)
    ensures var j := Join(Split(s));
      |j| <= |s| && j == s[..|j|] && AllNewlines(s[|j|..])
  {
    if !NoNewline(s) {
      JoinPieces(s);
      JoinDropTrailingEmpty(Pieces(s));
    }
  }

  lemma PiecesExampleStep()
    ensures Pieces("a\n") == ["a", ""]
  {
    assert "a\n"[..1] == "a";
    assert Pieces("a") == ["a"];
  }

  lemma PiecesExample()
    ensures Pieces("a\nb") == ["a", "b"]
  {
    PiecesExampleStep();
    assert "a\nb"[..2] == "a\n";
    assert "" + ['b'] == "b";
  }

  /** A trace ending in a newline yields no empty last line. */
  lemma SplitExampleTrailingNewline()
    ensures Split("a\nb\n") == ["a", "b"]
  {
    assert !NoNewline("a\nb\n") by { assert "a\nb\n"[1] == Newline; }
    PiecesExampleTrailing();
    assert ["a", "b", ""][..2] == ["a", "b"];
  }

  lemma PiecesExampleTrailing()
    ensures Pieces("a\nb\n") == ["a", "b", ""]
  {
    PiecesExample();
    assert "a\nb\n"[..3] == "a\nb";
  }

  /** Newlines alone yield no line at all. */
  lemma SplitExampleOnlyNewlines()
    ensures Split("\n\n") == []
  {
    assert !NoNewline("\n\n") by { assert "\n\n"[0] == Newline; }
    assert "\n"[..0] == "";
    assert Pieces("\n") == ["", ""];
    assert "\n\n"[..1] == "\n";
    assert Pieces("\n\n") == ["", "", ""];
  }
}
