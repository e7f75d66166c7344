/** The "Detected Classes" column of the per-image log (compare_models.py line 50):
    the class ids of one inference call, each written as a Python decimal integer,
    joined by ", ". `Decode` is the reading of that column back into ids; it is the
    partner that shows the rendering loses nothing. */
module Render {
  import opened Wrappers

  const Separator: string := ", "

  predicate IsDigit(c: char) {
    '0' <= c <= '9'
  }

  predicate AllDigits(s: string) {
    forall i :: 0 <= i < |s| ==> IsDigit(s[i])
  }

  function DigitChar(d: nat): (c: char)
    requires d < 10
    ensures IsDigit(c)
  {
    (('0' as int) + d) as char
  }

  function DigitValue(c: char): (d: nat)
    requires IsDigit(c)
    ensures d < 10
  {
    (c as int - '0' as int) as nat
  }

  /** Decimal digits of n, most significant first (Python's str of a non-negative int). */
  function NatToString(n: nat): (s: string)
    ensures |s| >= 1 && AllDigits(s)
    ensures s[0] == '0' ==> n == 0
    decreases n
  {
    if n < 10 then [DigitChar(n)] else NatToString(n / 10) + [DigitChar(n % 10)]
  }

  /** The value of a string of decimal digits (the empty string reads as 0). */
  function ParseDigits(s: string): nat
    requires AllDigits(s)
  {
    if |s| == 0 then 0 else ParseDigits(s[..|s| - 1]) * 10 + DigitValue(s[|s| - 1])
  }

  /** Python's str of an int: a minus sign before the digits of a negative value. */
  function ShowInt(n: int): (s: string)
    ensures |s| >= 1
    ensures forall i :: 0 <= i < |s| ==> s[i] != ','
  {
    if n < 0 then "-" + NatToString(-n) else NatToString(n)
  }

  /** A decimal integer with an optional leading minus sign, as `ShowInt` writes it. */
  function ParseInt(s: string): Option<int> {
    if |s| >= 2 && s[0] == '-' && AllDigits(s[1..]) then Some(-(ParseDigits(s[1..]) as int))
    else if |s| >= 1 && AllDigits(s) then Some(ParseDigits(s))
    else None
  }

  /** The column value ", ".join(map(str, ids)). */
  function Join(ids: seq<int>): (s: string)
    ensures s == "" <==> |ids| == 0
  {
    if |ids| == 0 then ""
    else if |ids| == 1 then ShowInt(ids[0])
    else ShowInt(ids[0]) + Separator + Join(ids[1..])
  }

  /** Python's s.split(", "): the pieces between the separators, scanning left to
      right; the empty string gives one empty piece. */
  function Split(s: string): (pieces: seq<string>)
    ensures |pieces| >= 1
    decreases |s|
  {
    if |s| >= 2 && s[0] == ',' && s[1] == ' ' then [""] + Split(s[2..])
    else if |s| == 0 then [""]
    else
      var rest := Split(s[1..]);
      [[s[0]] + rest[0]] + rest[1..]
  }

  function ParseAll(pieces: seq<string>): Option<seq<int>> {
    if |pieces| == 0 then Some([])
    else match (ParseInt(pieces[0]), ParseAll(pieces[1..]))
      case (Some(v), Some(vs)) => Some([v] + vs)
      case _ => None
  }

  /** Reads a "Detected Classes" value back into the class ids it lists. */
  function Decode(s: string): Option<seq<int>> {
    if s == "" then Some([]) else ParseAll(Split(s))
  }

  function ShowAll(ids: seq<int>): (pieces: seq<string>)
    ensures |pieces| == |ids|
  {
    if |ids| == 0 then [] else [ShowInt(ids[0])] + ShowAll(ids[1..])
  }

  lemma {:induction false} ParseNatToString(n: nat)
    ensures ParseDigits(NatToString(n)) == n
    decreases n
  {
    if n >= 10 {
      var s := NatToString(n);
      assert s[..|s| - 1] == NatToString(n / 10);
      ParseNatToString(n / 10);
    }
  }

  lemma ParseShowInt(n: int)
    ensures ParseInt(ShowInt(n)) == Some(n)
  {
    ParseNatToString(if n < 0 then -n else n);
    if n < 0 {
      assert ShowInt(n)[1..] == NatToString(-n);
    }
  }

  /** Splitting at the first separator: a piece without a comma comes back whole. */
  lemma {:induction false} SplitPiece(w: string, t: string)
    requires forall i :: 0 <= i < |w| ==> w[i] != ','
    ensures Split(w + Separator + t) == [w] + Split(t)
    ensures Split(w) == [w]
    decreases |w|
  {
    if |w| == 0 {
      assert w + Separator + t == ", " + t;
      assert (", " + t)[2..] == t;
    } else {
      var s := w + Separator + t;
      assert s[1..] == w[1..] + Separator + t;
      SplitPiece(w[1..], t);
      assert [w[0]] + w[1..] == w;
    }
  }

  lemma {:induction false} SplitJoin(ids: seq<int>)
    requires |ids| >= 1
    ensures Split(Join(ids)) == ShowAll(ids)
  {
    SplitPiece(ShowInt(ids[0]), Join(ids[1..]));
    if |ids| > 1 {
      SplitJoin(ids[1..]);
    } else {
      assert ShowAll(ids[1..]) == [];
    }
  }

  lemma {:induction false} ParseShowAll(ids: seq<int>)
    ensures ParseAll(ShowAll(ids)) == Some(ids)
  {
    if |ids| > 0 {
      ParseShowInt(ids[0]);
      assert ShowAll(ids)[1..] == ShowAll(ids[1..]);
      ParseShowAll(ids[1..]);
      assert [ids[0]] + ids[1..] == ids;
    }
  }

  /** Reading the column back yields exactly the class ids that were written. */
  lemma {:induction false} DecodeJoin(ids: seq<int>)
    ensures Decode(Join(ids)) == Some(ids)
  {
    if |ids| > 0 {
      SplitJoin(ids);
      ParseShowAll(ids);
    }
  }

  /** Two calls with different class-id lists never render the same column value. */
  lemma JoinInjective(a: seq<int>, b: seq<int>)
    requires Join(a) == Join(b)
    ensures a == b
  {
    DecodeJoin(a);
    DecodeJoin(b);
  }
}
