/** Node ids: a slug of the label, made unique within the graph by a numeric suffix. */
module NodeIds {
  import opened Text
  import opened Sets
  import opened Slugs

  predicate IsIdChar(c: char) {
    IsDigit(c) || 'a' <= c <= 'z' || 'A' <= c <= 'Z' || c == '.' || c == '_' || c == ':' || c == '@' || c == '-'
  }

  function SlugBase(name: string): (slug: string)
    ensures slug != ""
  {
    var slug := Slug(name, IsIdChar);
    if slug == "" then "step" else slug
  }

  /** A letter, a digit, or one of `.`, `_`, `:`, `@` and `-`. */
  predicate IsWordChar(c: char) {
    'a' <= c <= 'z' || 'A' <= c <= 'Z' || '0' <= c <= '9' || c in ['.', '_', ':', '@', '-']
  }

  /** The slug of a label: its words in lower case with one dash between them, whatever stands
      between and around the words. */
  lemma SlugOfLabel(front: string, w: Words, back: string)
    requires AreWords(w, IsWordChar)
    requires forall i :: 0 <= i < |front| ==> front[i] == '-' || !IsWordChar(front[i])
    requires forall i :: 0 <= i < |back| ==> back[i] == '-' || !IsWordChar(back[i])
    requires TextOf(w)[..1] != "-" && TextOf(w)[|TextOf(w)| - 1..] != "-"
    ensures SlugBase(front + TextOf(w) + back) == Lower(Joined(w))
  {
    hide Slug, AreWords, TextOf, Joined;
    LowerKeepsWords(w, IsWordChar, IsIdChar);
    SlugOfWords(front, w, back, IsIdChar);
    EndsOfWords(w, IsWordChar);
  }

  /** A label without words has the id `step`. */
  lemma SlugOfNoWords(name: string)
    requires forall i :: 0 <= i < |name| ==> name[i] == '-' || !IsWordChar(name[i])
    ensures SlugBase(name) == "step"
  {
    hide Slug;
    SlugOfFiller(name, IsIdChar);
  }

  /** The k-th id tried for a slug: the slug itself, then `slug-2`, `slug-3`, ... */
  function Candidate(base: string, k: nat): string {
    if k <= 1 then base else base + "-" + Decimal(k)
  }

  lemma CandidatesDiffer(base: string, j: nat, k: nat)
    requires 1 <= j && 1 <= k && Candidate(base, j) == Candidate(base, k)
    ensures j == k
  {
    if j > 1 && k > 1 {
      assert Candidate(base, j)[|base| + 1..] == Decimal(j);
      assert Candidate(base, k)[|base| + 1..] == Decimal(k);
      DecimalInjective(j, k);
    }
  }

  ghost function FirstCandidates(base: string, n: nat): set<string> {
    set k | 1 <= k <= n :: Candidate(base, k)
  }

  lemma {:induction false} CandidateCount(base: string, n: nat)
    ensures |FirstCandidates(base, n)| == n
  {
    hide Candidate;
    if n == 0 {
      assert FirstCandidates(base, 0) == {};
    } else {
      CandidateCount(base, n - 1);
      LastIsNew(base, n);
      assert FirstCandidates(base, n) == FirstCandidates(base, n - 1) + {Candidate(base, n)};
    }
  }

  lemma LastIsNew(base: string, n: nat)
    requires n >= 1
    ensures Candidate(base, n) !in FirstCandidates(base, n - 1)
  {
    hide Candidate;
    forall k | 1 <= k < n
      ensures Candidate(base, k) != Candidate(base, n)
    {
      if Candidate(base, k) == Candidate(base, n) {
        CandidatesDiffer(base, k, n);
      }
    }
  }

  ghost predicate IsFirstFree(base: string, taken: set<string>, k: nat) {
    k >= 1 && Candidate(base, k) !in taken && forall j :: 1 <= j < k ==> Candidate(base, j) in taken
  }

  /** If the first `n` candidates are all taken, at least `n` ids are. */
  lemma CandidatesFit(base: string, taken: set<string>, n: nat)
    requires forall j :: 1 <= j <= n ==> Candidate(base, j) in taken
    ensures n <= |taken|
  {
    CandidateCount(base, n);
    SubsetSize(FirstCandidates(base, n), taken);
  }

  /** `id` is the first id of slug `base` that is not taken yet. */
  ghost predicate IsNextId(base: string, taken: set<string>, id: string) {
    exists k :: IsFirstFree(base, taken, k) && id == Candidate(base, k)
  }

  lemma NextIdUnique(base: string, taken: set<string>, a: string, b: string)
    requires IsNextId(base, taken, a) && IsNextId(base, taken, b)
    ensures a == b
  {
  }

  /** Takes the first id of the slug that is free. The loop ends because the ids it has
      tried are pairwise different and all among the finitely many taken ones. */
  method Slugify(base: string, taken: set<string>) returns (slug: string, taken': set<string>)
    ensures IsNextId(base, taken, slug)
    ensures slug !in taken && taken' == taken + {slug}
  {
    slug := base;
    var i := 2;
    while slug in taken
      invariant i >= 2 && slug == Candidate(base, i - 1)
      invariant forall j :: 1 <= j < i - 1 ==> Candidate(base, j) in taken
      invariant i - 2 <= |taken|
      decreases |taken| + 2 - i
    {
      CandidatesFit(base, taken, i - 1);
      slug := base + "-" + Decimal(i);
      i := i + 1;
    }
    assert IsFirstFree(base, taken, i - 1);
    taken' := taken + {slug};
  }
}
