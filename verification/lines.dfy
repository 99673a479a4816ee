/** Splitting text at LF: the whole-string specification of the line logger. */
module Lines {

  const LF := '\n'

  predicate HasLF(s: string) {
    LF in s
  }

  /** Position of the first LF. */
  function FirstLF(s: string): (i: nat)
    requires HasLF(s)
    ensures i < |s| && s[i] == LF && !HasLF(s[..i])
  {
    if s[0] == LF then 0 else FirstLF(s[1..]) + 1
  }

  /** The pieces between the LFs; there is always one more piece than there are LFs. */
  function Pieces(s: string): (ps: seq<string>)
    ensures ps != []
    decreases |s|
  {
    if HasLF(s) then [s[..FirstLF(s)]] + Pieces(s[FirstLF(s) + 1..]) else [s]
  }

  /** `std::views::split('\n')`: splitting an empty range yields no pieces. */
  function Split(s: string): seq<string> {
    if s == "" then [] else Pieces(s)
  }

  /** Removes one trailing LF, if there is one. */
  function Strip(s: string): string {
    if s != "" && s[|s| - 1] == LF then s[..|s| - 1] else s
  }

  function SplitLines(s: string): seq<string> {
    Split(Strip(s))
  }

  function Stripped(ls: seq<string>): (ps: seq<string>)
    ensures |ps| == |ls|
  {
    if ls == [] then [] else [Strip(ls[0])] + Stripped(ls[1..])
  }

  function Concat(ls: seq<string>): string {
    if ls == [] then "" else ls[0] + Concat(ls[1..])
  }

  /** The pieces with one LF between any two of them. */
  function Join(ps: seq<string>): string {
    if ps == [] then "" else if |ps| == 1 then ps[0] else ps[0] + [LF] + Join(ps[1..])
  }

  /** A line: LF at its end and nowhere else. */
  predicate IsLine(s: string) {
    s != "" && s[|s| - 1] == LF && !HasLF(s[..|s| - 1])
  }

  predicate AllLines(ls: seq<string>) {
    forall i :: 0 <= i < |ls| ==> IsLine(ls[i])
  }

  lemma {:induction false} ConcatSnoc(ls: seq<string>, l: string)
    ensures Concat(ls + [l]) == Concat(ls) + l
    decreases |ls|
  {
    if ls == [] {
      assert ls + [l] == [l] && Concat([l]) == l + Concat([]);
    } else {
      assert (ls + [l])[1..] == ls[1..] + [l];
      ConcatSnoc(ls[1..], l);
    }
  }

  lemma {:induction false} StrippedAppend(ls: seq<string>, ms: seq<string>)
    ensures Stripped(ls + ms) == Stripped(ls) + Stripped(ms)
    decreases |ls|
  {
    if ls == [] {
      assert ls + ms == ms;
    } else {
      assert (ls + ms)[1..] == ls[1..] + ms;
      StrippedAppend(ls[1..], ms);
    }
  }

  lemma FirstLFOf(l: string, rest: string)
    requires IsLine(l)
    ensures HasLF(l + rest) && FirstLF(l + rest) == |l| - 1
  {
    var s, k := l + rest, |l| - 1;
    assert s[k] == LF && forall i :: 0 <= i < k ==> s[i] == l[..k][i];
  }

  /** Splitting a text that begins with a line splits off that line. */
  lemma PiecesOfLine(l: string, rest: string)
    requires IsLine(l)
    ensures Pieces(l + rest) == [Strip(l)] + Pieces(rest)
  {
    FirstLFOf(l, rest);
    assert (l + rest)[..|l| - 1] == Strip(l) && (l + rest)[|l|..] == rest;
  }

  lemma Associate<T>(a: seq<T>, b: seq<T>, c: seq<T>)
    ensures a + b + c == a + (b + c)
  {
  }

  lemma {:induction false} PiecesOfLines(ls: seq<string>, rest: string)
    requires AllLines(ls)
    ensures Pieces(Concat(ls) + rest) == Stripped(ls) + Pieces(rest)
    decreases |ls|
  {
    if ls == [] {
      assert Concat(ls) + rest == rest && Stripped(ls) + Pieces(rest) == Pieces(rest);
    } else {
      var tail := Concat(ls[1..]) + rest;
      calc {
        Pieces(Concat(ls) + rest);
        { Associate(ls[0], Concat(ls[1..]), rest); }
        Pieces(ls[0] + tail);
        { PiecesOfLine(ls[0], tail); }
        [Strip(ls[0])] + Pieces(tail);
        { PiecesOfLines(ls[1..], rest); }
        [Strip(ls[0])] + (Stripped(ls[1..]) + Pieces(rest));
        { Associate([Strip(ls[0])], Stripped(ls[1..]), Pieces(rest)); }
        Stripped(ls) + Pieces(rest);
      }
    }
  }

  /** Pieces contain no LF. */
  lemma {:induction false} PiecesHaveNoLF(s: string)
    ensures forall i :: 0 <= i < |Pieces(s)| ==> !HasLF(Pieces(s)[i])
    decreases |s|
  {
    if HasLF(s) {
      PiecesHaveNoLF(s[FirstLF(s) + 1..]);
    }
  }

  /** What contains no LF is not changed by stripping. */
  lemma {:induction false} StrippedUnchanged(ps: seq<string>)
    requires forall i :: 0 <= i < |ps| ==> !HasLF(ps[i])
    ensures Stripped(ps) == ps
    decreases |ps|
  {
    if ps != [] {
      assert Strip(ps[0]) == ps[0];
      StrippedUnchanged(ps[1..]);
    }
  }

  /** Joining is the inverse of splitting. */
  lemma {:induction false} JoinPieces(s: string)
    ensures Join(Pieces(s)) == s
    decreases |s|
  {
    if HasLF(s) {
      var i := FirstLF(s);
      JoinPieces(s[i + 1..]);
      JoinCons(s[..i], Pieces(s[i + 1..]));
      CutAt(s, i);
    }
  }

  lemma JoinCons(p: string, ps: seq<string>)
    requires ps != []
    ensures Join([p] + ps) == p + [LF] + Join(ps)
  {
    assert ([p] + ps)[1..] == ps;
  }

  lemma CutAt(s: string, i: nat)
    requires i < |s|
    ensures s == s[..i] + [s[i]] + s[i + 1..]
  {
  }

  lemma {:induction false} ConcatLast(ls: seq<string>)
    requires ls != []
    ensures Concat(ls) == Concat(ls[..|ls| - 1]) + ls[|ls| - 1]
  {
    ConcatSnoc(ls[..|ls| - 1], ls[|ls| - 1]);
    assert ls[..|ls| - 1] + [ls[|ls| - 1]] == ls;
  }

  /** Text that goes on after its last LF: its pieces are the stripped lines and the pieces of
      what follows. */
  lemma OpenText(ls: seq<string>, rest: string)
    requires AllLines(ls) && rest != ""
    ensures Pieces(Concat(ls) + rest) == Stripped(ls + Split(rest))
  {
    StrippedAppend(ls, Split(rest));
    PiecesHaveNoLF(rest);
    StrippedUnchanged(Pieces(rest));
    PiecesOfLines(ls, rest);
  }

  /** Text that ends with LF: without that LF its pieces are the stripped lines. */
  lemma ClosedText(ls: seq<string>)
    requires AllLines(ls) && ls != []
    ensures Strip(Concat(ls)) + [LF] == Concat(ls)
    ensures Pieces(Strip(Concat(ls))) == Stripped(ls)
  {
    var front, last := ls[..|ls| - 1], ls[|ls| - 1];
    ConcatLast(ls);
    StripOfConcat(Concat(front), last);
    calc {
      Pieces(Strip(Concat(ls)));
      Pieces(Concat(front) + Strip(last));
      { PiecesOfLines(front, Strip(last)); }
      Stripped(front) + [Strip(last)];
      { StrippedAppend(front, [last]); assert Stripped([last]) == [Strip(last)] + Stripped([]); }
      Stripped(front + [last]);
      { assert front + [last] == ls; }
      Stripped(ls);
    }
  }

  lemma StripOfConcat(front: string, last: string)
    requires IsLine(last)
    ensures Strip(front + last) == front + Strip(last)
    ensures Strip(front + last) + [LF] == front + last
  {
    CutAt(front + last, |front + last| - 1);
  }

  /** Lines followed by an unterminated tail split into the stripped lines and the tail,
      except that a single empty line splits into nothing. */
  lemma SplitLinesOf(ls: seq<string>, tail: string)
    requires AllLines(ls) && !HasLF(tail)
    ensures Stripped(ls + Split(tail)) == SplitLines(Concat(ls) + tail) <==> Concat(ls) + tail != [LF]
  {
    var s := Concat(ls) + tail;
    if tail != "" {
      OpenText(ls, tail);
      assert s[|s| - 1] == tail[|tail| - 1] != LF;
    } else {
      assert s == Concat(ls) && ls + Split(tail) == ls;
      if ls != [] {
        ClosedText(ls);
        assert Strip(s) == "" <==> s == [LF];
      }
    }
  }

  /** Rejoining stripped lines and the pieces of what follows gives the text back. */
  lemma JoinOf(ls: seq<string>, rest: string)
    requires AllLines(ls)
    ensures rest != "" ==> Join(Stripped(ls + Split(rest))) == Concat(ls) + rest
    ensures rest == "" && ls != [] ==> Join(Stripped(ls + Split(rest))) + [LF] == Concat(ls)
  {
    if rest != "" {
      OpenText(ls, rest);
      JoinPieces(Concat(ls) + rest);
    } else if ls != [] {
      assert ls + Split(rest) == ls;
      ClosedText(ls);
      JoinPieces(Strip(Concat(ls)));
    }
  }
}
