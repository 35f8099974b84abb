/**
 * First-occurrence search, as `std::search` performs it for `Buffer::findCRLF`
 * and `Buffer::findCRLFDouble`, and how its answer moves when bytes are added
 * behind the text or taken away in front of it.
 */
module Search {
  import opened Wrappers

  const CR_LF: string := "\r\n"
  const CR_LF_TWICE: string := "\r\n\r\n"

  predicate OccursAt(s: string, pat: string, i: nat) {
    i + |pat| <= |s| && s[i..i + |pat|] == pat
  }

  ghost predicate Free(s: string, pat: string) {
    forall i: nat :: !OccursAt(s, pat, i)
  }

  function FindFrom(s: string, pat: string, i: nat): (r: Option<nat>)
    ensures r.Some? ==> OccursAt(s, pat, r.value) && forall j: nat :: i <= j < r.value ==> !OccursAt(s, pat, j)
    ensures r.None? ==> forall j: nat :: i <= j ==> !OccursAt(s, pat, j)
    decreases |s| - i
  {
    if |s| < i + |pat| then None
    else if OccursAt(s, pat, i) then Some(i)
    else FindFrom(s, pat, i + 1)
  }

  function Find(s: string, pat: string): (r: Option<nat>)
    ensures r.Some? ==> OccursAt(s, pat, r.value) && forall j: nat :: j < r.value ==> !OccursAt(s, pat, j)
    ensures r.None? ==> Free(s, pat)
  {
    FindFrom(s, pat, 0)
  }

  /** The contract of `Find` determines it. */
  lemma FindIs(s: string, pat: string, i: nat)
    requires OccursAt(s, pat, i)
    requires forall j: nat :: j < i ==> !OccursAt(s, pat, j)
    ensures Find(s, pat) == Some(i)
  {
    var r := Find(s, pat);
    assert r.Some?;
  }

  lemma FindNothing(s: string, pat: string)
    requires Free(s, pat)
    ensures Find(s, pat) == None
  {
  }

  lemma OccursInPrefix(s: string, t: string, pat: string, i: nat)
    requires i + |pat| <= |s|
    ensures OccursAt(s + t, pat, i) <==> OccursAt(s, pat, i)
  {
    assert (s + t)[i..i + |pat|] == s[i..i + |pat|];
  }

  lemma OccursInSuffix(s: string, t: string, pat: string, i: nat)
    ensures OccursAt(s + t, pat, |s| + i) <==> OccursAt(t, pat, i)
  {
    if i + |pat| <= |t| {
      assert (s + t)[|s| + i..|s| + i + |pat|] == t[i..i + |pat|];
    }
  }

  lemma FreeSlice(s: string, pat: string, lo: nat, hi: nat)
    requires lo <= hi <= |s|
    requires Free(s, pat)
    ensures Free(s[lo..hi], pat)
  {
    assert s == s[..lo] + (s[lo..hi] + s[hi..]);
    forall i: nat ensures !OccursAt(s[lo..hi], pat, i) {
      if OccursAt(s[lo..hi], pat, i) {
        OccursInPrefix(s[lo..hi], s[hi..], pat, i);
        OccursInSuffix(s[..lo], s[lo..hi] + s[hi..], pat, i);
      }
    }
  }

  /** A delimiter once found stays where it is, whatever arrives later. */
  lemma FindStableUnderAppend(s: string, t: string, pat: string)
    requires Find(s, pat).Some?
    ensures Find(s + t, pat) == Find(s, pat)
  {
    var i := Find(s, pat).value;
    OccursInPrefix(s, t, pat, i);
    forall j: nat | j < i ensures !OccursAt(s + t, pat, j) {
      OccursInPrefix(s, t, pat, j);
    }
    FindIs(s + t, pat, i);
  }

  /**
   * A delimiter that only the second chunk completes is found where the
   * concatenation has it: straddling the seam, or wholly inside the new chunk
   * at the position a search of that chunk alone would report.
   */
  lemma FindAcrossChunks(s: string, t: string, pat: string)
    requires Find(s, pat).None?
    ensures match Find(s + t, pat)
            case None => Free(t, pat)
            case Some(i) => |s| < i + |pat| && (i < |s| || Find(t, pat) == Some(i - |s|))
  {
    match Find(s + t, pat) {
      case None =>
        forall i: nat ensures !OccursAt(t, pat, i) {
          OccursInSuffix(s, t, pat, i);
        }
      case Some(i) =>
        if i + |pat| <= |s| {
          OccursInPrefix(s, t, pat, i);
        }
        if |s| <= i {
          OccursInSuffix(s, t, pat, i - |s|);
          forall j: nat | j < i - |s| ensures !OccursAt(t, pat, j) {
            OccursInSuffix(s, t, pat, j);
          }
          FindIs(t, pat, i - |s|);
        }
    }
  }

  /** Consuming bytes in front of the first delimiter moves it by just that many. */
  lemma FindAfterRetrieve(s: string, pat: string, n: nat)
    requires Find(s, pat).Some? && n <= Find(s, pat).value
    ensures Find(s[n..], pat) == Some(Find(s, pat).value - n)
  {
    var i := Find(s, pat).value;
    assert s[..n] + s[n..] == s;
    OccursInSuffix(s[..n], s[n..], pat, i - n);
    forall j: nat | j < i - n ensures !OccursAt(s[n..], pat, j) {
      OccursInSuffix(s[..n], s[n..], pat, j);
    }
    FindIs(s[n..], pat, i - n);
  }
}
