/** The corpus loader of compare_models.py: the images of the benchmark are the
    directory entries matching "*.jpg", followed by those matching "*.png". The
    directory listing itself (its order, and which entries it holds) is an input. */
module Corpus {

  const Jpg: string := ".jpg"
  const Png: string := ".png"

  predicate EndsWith(name: string, suffix: string) {
    |suffix| <= |name| && name[|name| - |suffix|..] == suffix
  }

  /** A name the benchmark picks up: one of the two recognised extensions. */
  predicate IsImage(name: string) {
    EndsWith(name, Jpg) || EndsWith(name, Png)
  }

  /** The entries of `listing` that the pattern "*" + suffix matches, in listing order. */
  function Glob(listing: seq<string>, suffix: string): (matched: seq<string>)
    ensures forall i :: 0 <= i < |matched| ==> EndsWith(matched[i], suffix)
    ensures forall x :: multiset(matched)[x] == if EndsWith(x, suffix) then multiset(listing)[x] else 0
  {
    if |listing| == 0 then []
    else
      assert listing == [listing[0]] + listing[1..];
      (if EndsWith(listing[0], suffix) then [listing[0]] else []) + Glob(listing[1..], suffix)
  }

  /** Globbing commutes with concatenation of listings, so the relative order of
      the matched entries is the listing order. */
  lemma {:induction false} GlobAppend(a: seq<string>, b: seq<string>, suffix: string)
    ensures Glob(a + b, suffix) == Glob(a, suffix) + Glob(b, suffix)
  {
    if |a| == 0 {
      assert a + b == b;
    } else {
      assert (a + b)[1..] == a[1..] + b;
      GlobAppend(a[1..], b, suffix);
    }
  }

  /** No name carries both extensions. */
  lemma ExtensionsDisjoint(name: string)
    ensures !(EndsWith(name, Jpg) && EndsWith(name, Png))
  {
    if EndsWith(name, Jpg) {
      assert name[|name| - 3] == 'j';
    }
  }

  /** The image list of the benchmark (compare_models.py line 14): every ".jpg"
      entry first, then every ".png" entry, each listed image exactly as often
      as the listing holds it, and nothing else. */
  function SelectCorpus(listing: seq<string>): (images: seq<string>)
    ensures forall i :: 0 <= i < |images| ==> IsImage(images[i])
    ensures forall i :: 0 <= i < |images| ==> (EndsWith(images[i], Jpg) <==> i < |Glob(listing, Jpg)|)
    ensures forall x :: multiset(images)[x] == if IsImage(x) then multiset(listing)[x] else 0
    ensures |images| == 0 <==> forall i :: 0 <= i < |listing| ==> !IsImage(listing[i])
  {
    ConcatenationFacts(listing, Glob(listing, Jpg), Glob(listing, Png));
    Glob(listing, Jpg) + Glob(listing, Png)
  }

  lemma ConcatenationFacts(listing: seq<string>, jpgs: seq<string>, pngs: seq<string>)
    requires jpgs == Glob(listing, Jpg) && pngs == Glob(listing, Png)
    ensures forall i :: 0 <= i < |jpgs + pngs| ==> (EndsWith((jpgs + pngs)[i], Jpg) <==> i < |jpgs|)
    ensures forall x :: multiset(jpgs + pngs)[x] == if IsImage(x) then multiset(listing)[x] else 0
    ensures |jpgs + pngs| == 0 <==> forall i :: 0 <= i < |listing| ==> !IsImage(listing[i])
  {
    ConcatenationOrder(jpgs, pngs);
    ConcatenationCounts(listing, jpgs, pngs);
    ConcatenationEmpty(listing, jpgs + pngs);
  }

  lemma ConcatenationOrder(jpgs: seq<string>, pngs: seq<string>)
    requires forall i :: 0 <= i < |jpgs| ==> EndsWith(jpgs[i], Jpg)
    requires forall i :: 0 <= i < |pngs| ==> EndsWith(pngs[i], Png)
    ensures forall i :: 0 <= i < |jpgs + pngs| ==> (EndsWith((jpgs + pngs)[i], Jpg) <==> i < |jpgs|)
  {
    forall i | 0 <= i < |jpgs + pngs|
      ensures EndsWith((jpgs + pngs)[i], Jpg) <==> i < |jpgs|
    {
      ExtensionsDisjoint((jpgs + pngs)[i]);
    }
  }

  lemma ConcatenationCounts(listing: seq<string>, jpgs: seq<string>, pngs: seq<string>)
    requires jpgs == Glob(listing, Jpg) && pngs == Glob(listing, Png)
    ensures forall x :: multiset(jpgs + pngs)[x] == if IsImage(x) then multiset(listing)[x] else 0
  {
    forall x
      ensures multiset(jpgs + pngs)[x] == if IsImage(x) then multiset(listing)[x] else 0
    {
      ExtensionsDisjoint(x);
      assert multiset(jpgs + pngs)[x] == multiset(jpgs)[x] + multiset(pngs)[x];
    }
  }

  lemma ConcatenationEmpty(listing: seq<string>, images: seq<string>)
    requires forall x :: multiset(images)[x] == if IsImage(x) then multiset(listing)[x] else 0
    ensures |images| == 0 <==> forall i :: 0 <= i < |listing| ==> !IsImage(listing[i])
  {
    if |images| == 0 {
      forall i | 0 <= i < |listing| ensures !IsImage(listing[i]) {
        assert listing[i] in multiset(listing);
        assert multiset(images)[listing[i]] == 0;
      }
    } else {
      var x := images[0];
      assert x in multiset(images);
      assert x in listing;
    }
  }
}
