/**
 * change_categ.js: moves a list of category URLs from one delivery zone and
 * city to another by rewriting the zone name and the `c=` city parameter.
 * Reading and writing the JSON files is left out; the parsed array is the
 * input and the array to be written is the result.
 */
module ChangeCateg {
  import opened Wrappers
  import opened Text

  const OLD_ZONE := "Magnum_ZONE1"
  const NEW_ZONE := "Magnum_ZONE5"
  const OLD_CITY := "c=750000000"
  const NEW_CITY := "c=710000000"

  /** One element of the input array: a string, or any other JSON value,
      kept as its serialised text. */
  datatype Entry = Url(url: string) | NotAString(json: string)

  /** `modifyCategoryUrl`: the first zone name and then the first city
      parameter are replaced. */
  function ModifyCategoryUrl(url: string): (r: string)
    ensures |r| == |url|
    ensures !Contains(url, OLD_ZONE) && !Contains(url, OLD_CITY) ==> r == url
  {
    var zoned := ReplaceFirst(url, OLD_ZONE, NEW_ZONE);
    ReplaceFirst(zoned, OLD_CITY, NEW_CITY)
  }

  /** The `urls.map(...)` of `modifyCategoryUrls`: strings are rewritten,
      anything else is passed through, and order and length are kept. */
  function ModifyCategoryUrls(urls: seq<Entry>): (r: seq<Entry>)
    ensures |r| == |urls|
    ensures forall k :: 0 <= k < |urls| && urls[k].NotAString? ==> r[k] == urls[k]
    ensures forall k :: 0 <= k < |urls| && urls[k].Url? ==> r[k] == Url(ModifyCategoryUrl(urls[k].url))
  {
    seq(|urls|, k requires 0 <= k < |urls| =>
      match urls[k]
      case Url(u) => Url(ModifyCategoryUrl(u))
      case NotAString(_) => urls[k])
  }

  // ---------------------------------------------------------------------
  // Where the two rewrites act
  // ---------------------------------------------------------------------

  /** `s` with the characters from `i` on overwritten by `rep`. */
  function Splice(s: string, i: nat, rep: string): (r: string)
    requires i + |rep| <= |s|
  {
    s[..i] + rep + s[i + |rep|..]
  }

  /** Splicing at the first occurrence, if there is one. */
  function SpliceAt(s: string, at: Option<nat>, rep: string): (r: string)
  {
    if at.Some? && at.value + |rep| <= |s| then Splice(s, at.value, rep) else s
  }

  /** The rewrite replaces the first zone name and the first city parameter
      of the ORIGINAL url: the two replacements do not interfere. */
  lemma RewritesAreIndependent(url: string)
    ensures ModifyCategoryUrl(url) ==
              SpliceAt(SpliceAt(url, IndexOf(url, OLD_ZONE), NEW_ZONE), IndexOf(url, OLD_CITY), NEW_CITY)
  {
    var zoned := ReplaceFirst(url, OLD_ZONE, NEW_ZONE);
    assert zoned == SpliceAt(url, IndexOf(url, OLD_ZONE), NEW_ZONE);
    if IndexOf(url, OLD_ZONE).Some? {
      var i := IndexOf(url, OLD_ZONE).value;
      CityDoesNotStraddleZone();
      CityDoesNotStraddleOldZone();
      SameOccurrences(url, i, OLD_ZONE, NEW_ZONE, OLD_CITY);
      SameIndexOf(url, zoned, OLD_CITY);
    }
  }

  // ---------------------------------------------------------------------
  // Applying the rewrite twice
  // ---------------------------------------------------------------------

  /** `q` occurs at most once in `s`. */
  predicate AtMostOnce(s: string, q: string) {
    forall a, b :: 0 <= a <= |s| && 0 <= b <= |s| && StartsAt(s, a, q) && StartsAt(s, b, q) ==> a == b
  }

  /** A url with at most one zone name and at most one city parameter is
      fully rewritten by one pass: a second pass changes nothing. */
  lemma ModifyIsIdempotent(url: string)
    requires AtMostOnce(url, OLD_ZONE) && AtMostOnce(url, OLD_CITY)
    ensures ModifyCategoryUrl(ModifyCategoryUrl(url)) == ModifyCategoryUrl(url)
  {
    var zoned := ReplaceFirst(url, OLD_ZONE, NEW_ZONE);
    ZoneDoesNotStraddleZone();
    CityDoesNotStraddleZone();
    CityDoesNotStraddleCity();
    ZoneDoesNotStraddleCity();
    RemovesSingleOccurrence(url, OLD_ZONE, NEW_ZONE);
    KeepsAtMostOnce(url, OLD_ZONE, NEW_ZONE, OLD_CITY);
    RemovesSingleOccurrence(zoned, OLD_CITY, NEW_CITY);
    KeepsAbsent(zoned, OLD_CITY, NEW_CITY, OLD_ZONE);
  }

  /** The same for every element of the array. */
  lemma ModifyUrlsIsIdempotent(urls: seq<Entry>)
    requires forall k :: 0 <= k < |urls| && urls[k].Url? ==>
               AtMostOnce(urls[k].url, OLD_ZONE) && AtMostOnce(urls[k].url, OLD_CITY)
    ensures ModifyCategoryUrls(ModifyCategoryUrls(urls)) == ModifyCategoryUrls(urls)
  {
    var once := ModifyCategoryUrls(urls);
    forall k | 0 <= k < |urls| && urls[k].Url?
      ensures ModifyCategoryUrl(once[k].url) == once[k].url
    {
      ModifyIsIdempotent(urls[k].url);
    }
  }

  // ---------------------------------------------------------------------
  // Occurrences across a replaced stretch
  // ---------------------------------------------------------------------

  /** `q` placed at offset `off` from the start of `mid` agrees with `mid`
      wherever the two overlap. */
  predicate Fits(q: string, mid: string, off: int) {
    forall k :: 0 <= k < |q| && 0 <= off + k < |mid| ==> q[k] == mid[off + k]
  }

  /** `q` can occur across or inside `mid` in some context. */
  predicate Straddles(q: string, mid: string) {
    exists off :: -|q| < off < |mid| && Fits(q, mid, off)
  }

  /** An occurrence of `q` in `pre + mid + post` lies wholly before or wholly
      after `mid` when `q` cannot straddle `mid`. */
  lemma Across(pre: string, mid: string, post: string, q: string, j: nat)
    requires StartsAt(pre + mid + post, j, q) && |q| > 0
    requires !Straddles(q, mid)
    ensures j + |q| <= |pre| || j >= |pre| + |mid|
  {
    if j + |q| > |pre| && j < |pre| + |mid| {
      var off := j - |pre|;
      var s := pre + mid + post;
      forall k | 0 <= k < |q| && 0 <= off + k < |mid|
        ensures q[k] == mid[off + k]
      {
        assert q[k] == s[j + k];
      }
      assert Fits(q, mid, off);
    }
  }

  /** Overwriting an occurrence of `pat` by a string of the same length
      that `q` cannot straddle, where `q` cannot straddle `pat` either,
      leaves the occurrences of `q` where they were. */
  lemma SameOccurrences(s: string, i: nat, pat: string, rep: string, q: string)
    requires StartsAt(s, i, pat) && |rep| == |pat| && |q| > 0
    requires !Straddles(q, rep) && !Straddles(q, pat)
    ensures forall j :: StartsAt(Splice(s, i, rep), j, q) <==> StartsAt(s, j, q)
  {
    var pre, post := s[..i], s[i + |pat|..];
    assert s == pre + pat + post;
    forall j | StartsAt(Splice(s, i, rep), j, q)
      ensures StartsAt(s, j, q)
    {
      Outside(s, i, pat, rep, q, j);
    }
    forall j | StartsAt(s, j, q)
      ensures StartsAt(Splice(s, i, rep), j, q)
    {
      Across(pre, pat, post, q, j);
      Kept(s, i, pat, rep, q, j);
    }
  }

  /** An occurrence of `q` after the replacement was already there. */
  lemma Outside(s: string, i: nat, pat: string, rep: string, q: string, j: nat)
    requires StartsAt(s, i, pat) && |rep| == |pat| && |q| > 0 && !Straddles(q, rep)
    requires StartsAt(Splice(s, i, rep), j, q)
    ensures StartsAt(s, j, q) && (j + |q| <= i || j >= i + |pat|)
  {
    var r := Splice(s, i, rep);
    Across(s[..i], rep, s[i + |pat|..], q, j);
    assert forall k :: j <= k < j + |q| ==> s[k] == r[k];
    assert s[j..j + |q|] == r[j..j + |q|];
  }

  /** An occurrence of `q` that does not touch the replaced stretch
      survives it. */
  lemma Kept(s: string, i: nat, pat: string, rep: string, q: string, j: nat)
    requires StartsAt(s, i, pat) && |rep| == |pat|
    requires StartsAt(s, j, q) && (j + |q| <= i || j >= i + |pat|)
    ensures StartsAt(Splice(s, i, rep), j, q)
  {
    var r := Splice(s, i, rep);
    assert forall k :: j <= k < j + |q| ==> s[k] == r[k];
    assert s[j..j + |q|] == r[j..j + |q|];
  }

  /** Two strings of the same length with the same occurrences of `q` have
      the same first occurrence. */
  lemma SameIndexOf(s: string, t: string, q: string)
    requires |s| == |t|
    requires forall j :: StartsAt(t, j, q) <==> StartsAt(s, j, q)
    ensures IndexOf(s, q) == IndexOf(t, q)
  {
  }

  /** Replacing the only occurrence of `pat` removes `pat` altogether. */
  lemma RemovesSingleOccurrence(s: string, pat: string, rep: string)
    requires AtMostOnce(s, pat) && |rep| == |pat| && |pat| > 0 && !Straddles(pat, rep)
    ensures !Contains(ReplaceFirst(s, pat, rep), pat)
  {
    var r := ReplaceFirst(s, pat, rep);
    if Contains(s, pat) && Contains(r, pat) {
      var i := IndexOf(s, pat).value;
      var j := IndexOf(r, pat).value;
      assert r == Splice(s, i, rep);
      Outside(s, i, pat, rep, pat, j);
    }
  }

  /** The replacement creates no occurrence of `q`. */
  lemma KeepsAbsent(s: string, pat: string, rep: string, q: string)
    requires !Contains(s, q) && |rep| == |pat| && |q| > 0 && !Straddles(q, rep)
    ensures !Contains(ReplaceFirst(s, pat, rep), q)
  {
    var r := ReplaceFirst(s, pat, rep);
    if Contains(s, pat) && Contains(r, q) {
      var i := IndexOf(s, pat).value;
      var j := IndexOf(r, q).value;
      assert r == Splice(s, i, rep);
      Outside(s, i, pat, rep, q, j);
    }
  }

  /** Nor a second one. */
  lemma KeepsAtMostOnce(s: string, pat: string, rep: string, q: string)
    requires AtMostOnce(s, q) && |rep| == |pat| && |q| > 0 && !Straddles(q, rep)
    ensures AtMostOnce(ReplaceFirst(s, pat, rep), q)
  {
    var r := ReplaceFirst(s, pat, rep);
    if Contains(s, pat) {
      var i := IndexOf(s, pat).value;
      assert r == Splice(s, i, rep);
      forall a, b | StartsAt(r, a, q) && StartsAt(r, b, q)
        ensures a == b
      {
        Outside(s, i, pat, rep, q, a);
        Outside(s, i, pat, rep, q, b);
      }
    }
  }

  // ---------------------------------------------------------------------
  // The four strings cannot straddle one another
  // ---------------------------------------------------------------------

  lemma ZoneDoesNotStraddleZone()
    ensures !Straddles(OLD_ZONE, NEW_ZONE)
  {
    forall off | -|OLD_ZONE| < off < |NEW_ZONE|
      ensures !Fits(OLD_ZONE, NEW_ZONE, off)
    {
      if off < 0 {
        assert OLD_ZONE[-off] != NEW_ZONE[0];
      } else if off == 0 {
        assert OLD_ZONE[11] != NEW_ZONE[11];
      } else {
        assert OLD_ZONE[0] != NEW_ZONE[off];
      }
    }
  }

  lemma ZoneDoesNotStraddleCity()
    ensures !Straddles(OLD_ZONE, NEW_CITY)
  {
    forall off | -|OLD_ZONE| < off < |NEW_CITY|
      ensures !Fits(OLD_ZONE, NEW_CITY, off)
    {
      if off < 0 {
        assert OLD_ZONE[-off] != NEW_CITY[0];
      } else {
        assert OLD_ZONE[0] != NEW_CITY[off];
      }
    }
  }

  lemma CityDoesNotStraddleCity()
    ensures !Straddles(OLD_CITY, NEW_CITY)
  {
    forall off | -|OLD_CITY| < off < |NEW_CITY|
      ensures !Fits(OLD_CITY, NEW_CITY, off)
    {
      if off < 0 {
        assert OLD_CITY[-off] != NEW_CITY[0];
      } else if off == 0 {
        assert OLD_CITY[3] != NEW_CITY[3];
      } else {
        assert OLD_CITY[0] != NEW_CITY[off];
      }
    }
  }

  lemma CityDoesNotStraddleZone()
    ensures !Straddles(OLD_CITY, NEW_ZONE)
  {
    forall off | -|OLD_CITY| < off < |NEW_ZONE|
      ensures !Fits(OLD_CITY, NEW_ZONE, off)
    {
      if off < 0 {
        assert OLD_CITY[-off] != NEW_ZONE[0];
      } else {
        assert OLD_CITY[0] != NEW_ZONE[off];
      }
    }
  }

  lemma CityDoesNotStraddleOldZone()
    ensures !Straddles(OLD_CITY, OLD_ZONE)
  {
    forall off | -|OLD_CITY| < off < |OLD_ZONE|
      ensures !Fits(OLD_CITY, OLD_ZONE, off)
    {
      if off < 0 {
        assert OLD_CITY[-off] != OLD_ZONE[0];
      } else {
        assert OLD_CITY[0] != OLD_ZONE[off];
      }
    }
  }
}
