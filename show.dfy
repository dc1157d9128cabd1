/**
  The show record and the read-only operations on a queue of shows:
  first-match lookup by title (the `find_if` shared by remove and search),
  erasing one position, the indexed listing, and the two sort orders.
 */
module Shows {

  datatype Option<T> = None | Some(value: T)

  /** The range of the C++ `int` that stores a show's episode count. */
  type Int32 = x: int | -0x8000_0000 <= x < 0x8000_0000

  /** One entry of the queue. */
  datatype Show = Show(title: string, genre: string, episodes: Int32, rating: real)

  // ---------------------------------------------------------------------------
  // Exact-title lookup
  // ---------------------------------------------------------------------------

  /** `i` is the position of the first show whose title equals `target`. */
  predicate IsFirstMatch(q: seq<Show>, target: string, i: nat) {
    i < |q| && q[i].title == target &&
    forall j :: 0 <= j < i ==> q[j].title != target
  }

  /** The position `find_if` stops at, or None when it reaches the end. */
  function FindFirst(q: seq<Show>, target: string): (r: Option<nat>)
    ensures r.Some? ==> IsFirstMatch(q, target, r.value)
    ensures r.None? ==> forall i :: 0 <= i < |q| ==> q[i].title != target
  {
    if |q| == 0 then None
    else if q[0].title == target then Some(0)
    else match FindFirst(q[1..], target)
      case None => None
      case Some(i) => Some(i + 1)
  }

  /** Search: the first show carrying exactly `target` as its title. */
  function Search(q: seq<Show>, target: string): (r: Option<Show>)
    ensures r.Some? <==> exists i :: 0 <= i < |q| && q[i].title == target
    ensures r.Some? ==> exists i: nat :: IsFirstMatch(q, target, i) && q[i] == r.value
  {
    match FindFirst(q, target)
    case None => None
    case Some(i) => Some(q[i])
  }

  /** Appending a show does not move an earlier first match. */
  lemma {:induction false} FindFirstAppend(q: seq<Show>, x: Show, target: string)
    ensures FindFirst(q + [x], target) ==
      if FindFirst(q, target).Some? then FindFirst(q, target)
      else if x.title == target then Some(|q|)
      else None
  {
    if |q| > 0 {
      assert (q + [x])[0] == q[0];
      assert (q + [x])[1..] == q[1..] + [x];
      FindFirstAppend(q[1..], x, target);
    }
  }

  /** A show just appended is what a search for its title finds, unless an
      earlier show already has that title: then that earlier one is found. */
  lemma SearchAfterAppend(q: seq<Show>, x: Show)
    ensures Search(q + [x], x.title) ==
      if Search(q, x.title).Some? then Search(q, x.title) else Some(x)
  {
    FindFirstAppend(q, x, x.title);
    if FindFirst(q, x.title).Some? {
      assert (q + [x])[FindFirst(q, x.title).value] == q[FindFirst(q, x.title).value];
    }
  }

  // ---------------------------------------------------------------------------
  // Erasing one position (vector::erase)
  // ---------------------------------------------------------------------------

  /** The queue without its element at `i`; the others keep their order. */
  function Erase(q: seq<Show>, i: nat): (r: seq<Show>)
    requires i < |q|
    ensures |r| == |q| - 1
    ensures forall k :: 0 <= k < i ==> r[k] == q[k]
    ensures forall k :: i <= k < |r| ==> r[k] == q[k + 1]
    ensures multiset(q) == multiset(r) + multiset{q[i]}
  {
    assert q == q[..i] + [q[i]] + q[i + 1..];
    q[..i] + q[i + 1..]
  }

  // ---------------------------------------------------------------------------
  // Listing
  // ---------------------------------------------------------------------------

  /** The entries the recursive display prints from `index` on: each show
      with its 1-based position, in queue order, each exactly once. */
  function Listing(q: seq<Show>, index: nat): (r: seq<(nat, Show)>)
    decreases |q| - index
    ensures |r| == if index < |q| then |q| - index else 0
    ensures forall k :: 0 <= k < |r| ==> r[k] == (index + k + 1, q[index + k])
  {
    if index >= |q| then []
    else [(index + 1, q[index])] + Listing(q, index + 1)
  }

  // ---------------------------------------------------------------------------
  // Sort orders
  // ---------------------------------------------------------------------------

  /** Lexicographic `<` on titles, as `std::string` compares them. */
  predicate TitleLess(a: string, b: string) {
    if |a| == 0 then |b| > 0
    else if |b| == 0 then false
    else if a[0] != b[0] then a[0] < b[0]
    else TitleLess(a[1..], b[1..])
  }

  lemma {:induction false} TitleLessIrreflexive(a: string)
    ensures !TitleLess(a, a)
  {
    if |a| > 0 {
      TitleLessIrreflexive(a[1..]);
    }
  }

  lemma {:induction false} TitleLessTransitive(a: string, b: string, c: string)
    requires TitleLess(a, b) && TitleLess(b, c)
    ensures TitleLess(a, c)
  {
    if |a| > 0 && a[0] == b[0] && b[0] == c[0] {
      TitleLessTransitive(a[1..], b[1..], c[1..]);
    }
  }

  /** Distinct titles are always ordered one way or the other. */
  lemma {:induction false} TitleLessTotal(a: string, b: string)
    ensures a == b || TitleLess(a, b) || TitleLess(b, a)
  {
    if |a| > 0 && |b| > 0 && a[0] == b[0] {
      TitleLessTotal(a[1..], b[1..]);
      if a[1..] == b[1..] {
        assert a == [a[0]] + a[1..] && b == [b[0]] + b[1..];
      }
    }
  }

  /** The two orders the sort menu offers. */
  datatype SortKey = ByTitle | ByRating

  /** The comparator handed to `std::sort`: `x` must come strictly before `y`. */
  predicate Before(key: SortKey, x: Show, y: Show) {
    match key
    case ByTitle => TitleLess(x.title, y.title)
    case ByRating => x.rating > y.rating
  }

  lemma BeforeIrreflexive(key: SortKey, x: Show)
    ensures !Before(key, x, x)
  {
    if key == ByTitle {
      TitleLessIrreflexive(x.title);
    }
  }

  lemma BeforeTransitive(key: SortKey, x: Show, y: Show, z: Show)
    requires Before(key, x, y) && Before(key, y, z)
    ensures Before(key, x, z)
  {
    if key == ByTitle {
      TitleLessTransitive(x.title, y.title, z.title);
    }
  }

  /** No show is placed after one it should precede. */
  predicate Sorted(key: SortKey, s: seq<Show>) {
    forall i, j :: 0 <= i < j < |s| ==> !Before(key, s[j], s[i])
  }

  /** Sorted by title means ascending: every title is equal to or below
      each title after it. */
  lemma SortedByTitleAscending(s: seq<Show>, i: nat, j: nat)
    requires Sorted(ByTitle, s) && i < j < |s|
    ensures s[i].title == s[j].title || TitleLess(s[i].title, s[j].title)
  {
    TitleLessTotal(s[i].title, s[j].title);
  }

  /** Sorting "Zeta", "Alpha" by title leaves exactly one possible outcome. */
  lemma SortTwoTitles(zeta: Show, alpha: Show, s: seq<Show>)
    requires zeta.title == "Zeta" && alpha.title == "Alpha"
    requires Sorted(ByTitle, s) && multiset(s) == multiset([zeta, alpha])
    ensures s == [alpha, zeta]
  {
  }

  /** Sorting ratings 3.0 and 4.5 by rating puts 4.5 first. */
  lemma SortTwoRatings(low: Show, high: Show, s: seq<Show>)
    requires low.rating == 3.0 && high.rating == 4.5
    requires Sorted(ByRating, s) && multiset(s) == multiset([low, high])
    ensures s == [high, low]
  {
  }
}
