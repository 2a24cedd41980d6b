/** Choosing a slug for a new organisation. */
module Organizations {
  import opened Wrappers
  import opened Ordering
  import opened Text

  /** get_by_slug(slug) is not None: the stored slug is compared with the normalised argument. */
  predicate Found(slugs: seq<string>, slug: string) { Normal(slug) in slugs }

  function Candidate(base: string, k: nat): string { if k == 0 then base else base + "-" + Dec(k) }

  function FirstFree(slugs: seq<string>, base: string, k: nat): nat
    decreases |slugs| + 1 - k
  {
    if k > |slugs| || !Found(slugs, Candidate(base, k)) then k else FirstFree(slugs, base, k + 1)
  }

  ghost predicate AllFound(slugs: seq<string>, base: string, n: int) {
    forall j: nat :: j < n ==> Found(slugs, Candidate(base, j))
  }

  /** A given non-empty slug is taken as the base as it is, otherwise the slugified name. */
  function Base(name: string, slug: Option<string>): string {
    if slug.Some? && slug.value != "" then slug.value else Slugify(name)
  }

  function ChosenSlug(slugs: seq<string>, name: string, slug: Option<string>): string {
    Candidate(Base(name, slug), FirstFree(slugs, Base(name, slug), 0))
  }

  datatype Failure = DuplicateSlug(slug: string)

  function Created(slugs: seq<string>, name: string, given: Option<string>): (seq<string>, Result<string, Failure>) {
    var slug := ChosenSlug(slugs, name, given);
    if slug in slugs then (slugs, Err(DuplicateSlug(slug))) else (slugs + [slug], Ok(slug))
  }

  class OrgRepository {
    var slugs: seq<string>

    constructor ()
      ensures slugs == []
    {
      slugs := [];
    }

    /** The loop of create_org; it ends after at most |orgs| + 1 candidates. */
    method FreshSlug(base: string) returns (slug: string)
      ensures slug == Candidate(base, FirstFree(slugs, base, 0))
    {
      slug := base;
      var counter := 1;
      while Found(slugs, slug)
        invariant counter >= 1 && slug == Candidate(base, counter - 1)
        invariant AllFound(slugs, base, counter - 1)
        decreases |slugs| - counter
      {
        FoundBound(slugs, base, counter);
        slug := base + "-" + Dec(counter);
        counter := counter + 1;
      }
      FirstFreeReached(slugs, base, 0, counter - 1);
    }

    /** The slug column is UNIQUE, so the flush refuses a slug that is in the table already. */
    method CreateOrg(name: string, given: Option<string>) returns (r: Result<string, Failure>)
      modifies this
      ensures (slugs, r) == Created(old(slugs), name, given)
    {
      var base := if given.Some? && given.value != "" then given.value else Slugify(name);
      var slug := FreshSlug(base);
      if slug in slugs {
        return Err(DuplicateSlug(slug));
      }
      slugs := slugs + [slug];
      r := Ok(slug);
    }
  }

  // ---------------------------------------------------------------- the candidates are looked up under different keys

  lemma {:induction false} StripLeftAppend(s: string, tail: string)
    requires tail != "" && !IsSpace(tail[0])
    ensures StripLeft(s + tail) == StripLeft(s) + tail
  {
    if s == "" {
      assert s + tail == tail;
    } else {
      assert (s + tail)[1..] == s[1..] + tail;
      if IsSpace(s[0]) {
        StripLeftAppend(s[1..], tail);
      }
    }
  }

  lemma StripAppend(s: string, tail: string)
    requires tail != "" && !IsSpace(tail[0]) && !IsSpace(tail[|tail| - 1])
    ensures Strip(s + tail) == StripLeft(s) + tail
  {
    StripLeftAppend(s, tail);
    NothingToStrip(StripLeft(s) + tail);
  }

  lemma NothingToStrip(s: string)
    requires s != "" && !IsSpace(s[|s| - 1])
    ensures StripRight(s) == s
  {
  }

  lemma LowerAppend(s: string, tail: string)
    ensures Lower(s + tail) == Lower(s) + Lower(tail)
  {
  }

  /** The suffix "-k" survives normalisation. */
  lemma SuffixFacts(k: nat)
    ensures var tail := "-" + Dec(k);
            !IsSpace(tail[0]) && !IsSpace(tail[|tail| - 1]) && Lower(tail) == tail
  {
    var tail := "-" + Dec(k);
    forall i | 0 <= i < |tail| ensures LowerChar(tail[i]) == tail[i] && !IsSpace(tail[i]) {
      assert i > 0 ==> IsDigit(Dec(k)[i - 1]);
    }
  }

  /** For k > 0 only the left end of the base is trimmed. */
  lemma NormalCandidate(base: string, k: nat)
    requires k > 0
    ensures Normal(Candidate(base, k)) == Lower(StripLeft(base)) + ("-" + Dec(k))
  {
    var tail := "-" + Dec(k);
    SuffixFacts(k);
    StripAppend(base, tail);
    LowerAppend(StripLeft(base), tail);
    assert base + "-" + Dec(k) == base + tail;
  }

  lemma {:induction false} StripRightShortens(s: string)
    ensures |StripRight(s)| <= |s|
  {
    if s != [] && IsSpace(s[|s| - 1]) {
      StripRightShortens(s[..|s| - 1]);
    }
  }

  lemma SuffixesDiffer(left: string, j: nat, k: nat)
    requires j != k
    ensures left + ("-" + Dec(j)) != left + ("-" + Dec(k))
  {
    DecInjective(j, k);
    assert (left + ("-" + Dec(j)))[|left| + 1..] == Dec(j);
    assert (left + ("-" + Dec(k)))[|left| + 1..] == Dec(k);
  }

  lemma KeysDiffer(base: string, j: nat, k: nat)
    requires j < k
    ensures Normal(Candidate(base, j)) != Normal(Candidate(base, k))
  {
    NormalCandidate(base, k);
    var left := Lower(StripLeft(base));
    if j == 0 {
      StripRightShortens(StripLeft(base));
      assert |Normal(base)| < |left + ("-" + Dec(k))|;
    } else {
      NormalCandidate(base, j);
      SuffixesDiffer(left, j, k);
    }
  }

  lemma FoundBound(slugs: seq<string>, base: string, n: nat)
    requires AllFound(slugs, base, n)
    ensures n <= |slugs|
  {
    forall j, k | 0 <= j < k < n ensures Normal(Candidate(base, j)) != Normal(Candidate(base, k)) {
      KeysDiffer(base, j, k);
    }
    DistinctAtMostLength(slugs);
    Pigeonhole((k: nat) => Normal(Candidate(base, k)), n, set s | s in slugs);
  }

  lemma {:induction false} FirstFreeStops(slugs: seq<string>, base: string, k: nat)
    requires AllFound(slugs, base, k)
    ensures k <= FirstFree(slugs, base, k) <= |slugs|
    ensures !Found(slugs, Candidate(base, FirstFree(slugs, base, k)))
    ensures AllFound(slugs, base, FirstFree(slugs, base, k))
    decreases |slugs| + 1 - k
  {
    FoundBound(slugs, base, k);
    if Found(slugs, Candidate(base, k)) {
      FoundBound(slugs, base, k + 1);
      FirstFreeStops(slugs, base, k + 1);
    }
  }

  lemma {:induction false} FirstFreeReached(slugs: seq<string>, base: string, j: nat, k: nat)
    requires j <= k && AllFound(slugs, base, k) && !Found(slugs, Candidate(base, k))
    ensures FirstFree(slugs, base, j) == k
    decreases k - j
  {
    if j < k {
      FoundBound(slugs, base, j + 1);
      FirstFreeReached(slugs, base, j + 1, k);
    }
  }

  // ---------------------------------------------------------------- uniqueness

  /** The slug chosen is free as looked up, and it is the first candidate that is. */
  lemma ChosenSlugIsFree(slugs: seq<string>, name: string, slug: Option<string>)
    ensures !Found(slugs, ChosenSlug(slugs, name, slug))
    ensures FirstFree(slugs, Base(name, slug), 0) <= |slugs|
    ensures AllFound(slugs, Base(name, slug), FirstFree(slugs, Base(name, slug), 0))
  {
    FirstFreeStops(slugs, Base(name, slug), 0);
  }

  /** `slug` is the first of base, base-1, base-2, ... that a lookup does not find. */
  ghost predicate FirstNotFound(slugs: seq<string>, base: string, slug: string) {
    exists k: nat :: slug == (if k == 0 then base else base + "-" + Dec(k)) && Normal(slug) !in slugs
                     && forall j: nat :: j < k ==> Normal(if j == 0 then base else base + "-" + Dec(j)) in slugs
  }

  lemma ChosenIsFirst(slugs: seq<string>, name: string, given: Option<string>)
    ensures FirstNotFound(slugs, Base(name, given), ChosenSlug(slugs, name, given))
  {
    var base := Base(name, given);
    var n := FirstFree(slugs, base, 0);
    var slug := ChosenSlug(slugs, name, given);
    ChosenSlugIsFree(slugs, name, given);
    forall j: nat | j < n ensures Normal(if j == 0 then base else base + "-" + Dec(j)) in slugs {
      assert Found(slugs, Candidate(base, j));
    }
    assert slug == (if n == 0 then base else base + "-" + Dec(n)) && Normal(slug) !in slugs;
  }

  /**
    A new organisation gets the first slug not found, from the slug it is given, or from its name if it
    is given none or an empty one; a slug that the table has, as it stands, is refused.
   */
  lemma CreatedIs(slugs: seq<string>, name: string, given: Option<string>)
    ensures var (after, r) := Created(slugs, name, given);
            var slug := if r.Ok? then r.value else r.error.slug;
            && (given == None || given == Some("") ==> FirstNotFound(slugs, Slugify(name), slug))
            && (given != None && given != Some("") ==> FirstNotFound(slugs, given.value, slug))
            && (r.Ok? <==> slug !in slugs) && after == if r.Ok? then slugs + [slug] else slugs
  {
    ChosenIsFirst(slugs, name, given);
  }

  /** Suffixes keep a normalised base normalised. */
  lemma CandidateIsNormal(base: string, k: nat)
    requires Normal(base) == base
    ensures Normal(Candidate(base, k)) == Candidate(base, k)
  {
    NormalIsTrimmed(base);
    if k > 0 {
      NormalCandidate(base, k);
      assert base + "-" + Dec(k) == base + ("-" + Dec(k));
    }
  }

  lemma NormalBaseIsNew(slugs: seq<string>, name: string, slug: Option<string>)
    requires Normal(Base(name, slug)) == Base(name, slug)
    ensures ChosenSlug(slugs, name, slug) !in slugs
  {
    ChosenSlugIsFree(slugs, name, slug);
    CandidateIsNormal(Base(name, slug), FirstFree(slugs, Base(name, slug), 0));
  }

  /** Main result: a slug made from a name is looked up as it is stored, so it is new in the table. */
  lemma SlugFromNameIsNew(slugs: seq<string>, name: string)
    ensures ChosenSlug(slugs, name, None) !in slugs
  {
    SlugIsNormal(name);
    NormalBaseIsNew(slugs, name, None);
  }

  /** So creating an organisation from its name alone never fails on the slug. */
  lemma NameIsAccepted(slugs: seq<string>, name: string)
    ensures Created(slugs, name, None) == (slugs + [ChosenSlug(slugs, name, None)], Ok(ChosenSlug(slugs, name, None)))
  {
    SlugFromNameIsNew(slugs, name);
  }

  /** A given slug is certain to be accepted, whatever distinct slugs the table holds, exactly if it is normalised. */
  lemma GivenSlugIsNewIff(name: string, slug: string)
    requires slug != ""
    ensures (forall slugs :: NoDuplicates(slugs) ==> ChosenSlug(slugs, name, Some(slug)) !in slugs)
            <==> Normal(slug) == slug
    ensures (forall slugs :: NoDuplicates(slugs) ==> Created(slugs, name, Some(slug)).1.Ok?) <==> Normal(slug) == slug
  {
    if Normal(slug) == slug {
      forall slugs ensures ChosenSlug(slugs, name, Some(slug)) !in slugs {
        NormalBaseIsNew(slugs, name, Some(slug));
      }
    } else {
      RawSlugIsRefused(name, slug);
    }
  }

  /** A slug that is not normalised is not found once it is stored, chosen again, and refused. */
  lemma RawSlugIsRefused(name: string, slug: string)
    requires slug != "" && Normal(slug) != slug
    ensures NoDuplicates([slug]) && ChosenSlug([slug], name, Some(slug)) in [slug]
    ensures Created([slug], name, Some(slug)) == ([slug], Err(DuplicateSlug(slug)))
  {
    FirstFreeReached([slug], slug, 0, 0);
  }
}
