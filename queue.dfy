/**
  The show queue itself: the vector of shows that the menu operations change
  in place, and the errors they report.
 */
module Queue {
  import opened Shows
  import opened TextFormat

  /** The exceptions the operations throw back to the menu loop. */
  datatype QueueError =
    | InvalidEpisodes    // "Episodes must be a positive integer."
    | InvalidRating      // "Rating must be between 1.0 and 5.0."
    | ShowNotFound       // "Show not found in queue."
    | InvalidSortOption  // "Invalid sort option."

  datatype Status = Ok | Fail(error: QueueError)

  predicate ConfirmIntInput(val: int, min: int) {
    val >= min
  }

  predicate ConfirmDoubleInput(val: real, min: real, max: real) {
    val >= min && val <= max
  }

  /** A sorted rearrangement of `s` (`std::sort` with the comparator of `key`;
      its algorithm and its order among equal keys are not modelled). */
  method SortShows(key: SortKey, s: seq<Show>) returns (r: seq<Show>)
    ensures Sorted(key, r)
    ensures multiset(r) == multiset(s)
  {
    r := [];
    for i := 0 to |s|
      invariant Sorted(key, r)
      invariant multiset(r) == multiset(s[..i])
    {
      var x := s[i];
      var p := InsertionPoint(key, r, x);
      InsertKeepsSorted(key, r, p, x);
      assert s[..i + 1] == s[..i] + [x];
      assert multiset(s[..i + 1]) == multiset(s[..i]) + multiset{x};
      r := r[..p] + [x] + r[p..];
    }
    assert s[..|s|] == s;
  }

  /** The first position of `r` whose element `x` must precede, or `|r|`. */
  method InsertionPoint(key: SortKey, r: seq<Show>, x: Show) returns (p: nat)
    ensures p <= |r|
    ensures forall k :: 0 <= k < p ==> !Before(key, x, r[k])
    ensures p < |r| ==> Before(key, x, r[p])
  {
    p := 0;
    while p < |r| && !Before(key, x, r[p])
      invariant p <= |r|
      invariant forall k :: 0 <= k < p ==> !Before(key, x, r[k])
    {
      p := p + 1;
    }
  }

  /** Inserting `x` after every element it does not precede, and before the
      first one it does, keeps a sorted sequence sorted and adds `x` to its
      elements. */
  lemma InsertKeepsSorted(key: SortKey, r: seq<Show>, p: nat, x: Show)
    requires Sorted(key, r) && p <= |r|
    requires forall k :: 0 <= k < p ==> !Before(key, x, r[k])
    requires p < |r| ==> Before(key, x, r[p])
    ensures Sorted(key, r[..p] + [x] + r[p..])
    ensures multiset(r[..p] + [x] + r[p..]) == multiset(r) + multiset{x}
  {
    var t := r[..p] + [x] + r[p..];
    forall i, j | 0 <= i < j < |t|
      ensures !Before(key, t[j], t[i])
    {
      InsertedPairInOrder(key, r, p, x, i, j);
    }
    InsertAddsOne(r, p, x);
  }

  lemma InsertAddsOne(r: seq<Show>, p: nat, x: Show)
    requires p <= |r|
    ensures multiset(r[..p] + [x] + r[p..]) == multiset(r) + multiset{x}
  {
    assert r == r[..p] + r[p..];
  }

  /** One pair of positions of the sequence after the insertion. */
  lemma InsertedPairInOrder(key: SortKey, r: seq<Show>, p: nat, x: Show, i: nat, j: nat)
    requires Sorted(key, r) && p <= |r|
    requires forall k :: 0 <= k < p ==> !Before(key, x, r[k])
    requires p < |r| ==> Before(key, x, r[p])
    requires i < j < |r| + 1
    ensures !Before(key, (r[..p] + [x] + r[p..])[j], (r[..p] + [x] + r[p..])[i])
  {
    var t := r[..p] + [x] + r[p..];
    if i == p {
      assert t[j] == r[j - 1];
      BeforeIrreflexive(key, x);
      if Before(key, r[j - 1], x) {
        if j - 1 == p {
          BeforeTransitive(key, x, r[p], x);
        } else {
          BeforeTransitive(key, r[j - 1], x, r[p]);
        }
      }
    } else if j == p {
      assert t[i] == r[i];
    } else {
      assert t[i] == if i < p then r[i] else r[i - 1];
      assert t[j] == if j < p then r[j] else r[j - 1];
    }
  }

  /** The queue of shows, in the order the menu shows them. */
  class ShowQueue {
    var shows: seq<Show>

    constructor ()
      ensures shows == []
    {
      shows := [];
    }

    /** Adds a show after checking the episode count, then the rating. A
        value that could not be read from the console is None. */
    method Add(title: string, genre: string, episodes: Option<Int32>, rating: Option<real>)
      returns (status: Status)
      modifies this
      ensures (episodes.None? || episodes.value < 1) ==>
        status == Fail(InvalidEpisodes) && shows == old(shows)
      ensures (episodes.Some? && episodes.value >= 1 &&
               (rating.None? || rating.value < 1.0 || rating.value > 5.0)) ==>
        status == Fail(InvalidRating) && shows == old(shows)
      ensures status == Ok <==>
        episodes.Some? && episodes.value >= 1 &&
        rating.Some? && 1.0 <= rating.value <= 5.0
      ensures status == Ok ==>
        shows == old(shows) + [Show(title, genre, episodes.value, rating.value)]
    {
      if episodes.None? || !ConfirmIntInput(episodes.value, 1) {
        return Fail(InvalidEpisodes);
      }
      if rating.None? || !ConfirmDoubleInput(rating.value, 1.0, 5.0) {
        return Fail(InvalidRating);
      }
      shows := shows + [Show(title, genre, episodes.value, rating.value)];
      status := Ok;
    }

    /** Erases the first show titled exactly `target`. */
    method Remove(target: string) returns (status: Status)
      modifies this
      ensures status == Ok <==> exists i :: 0 <= i < |old(shows)| && old(shows)[i].title == target
      ensures status == Ok ==>
        exists i: nat :: IsFirstMatch(old(shows), target, i) && shows == Erase(old(shows), i)
      ensures status != Ok ==> status == Fail(ShowNotFound) && shows == old(shows)
    {
      var found := FindFirst(shows, target);
      if found.None? {
        return Fail(ShowNotFound);
      }
      shows := Erase(shows, found.value);
      status := Ok;
    }

    /** Reports the first show titled exactly `target`, or None when there
        is none; the queue is only read. */
    method Search(target: string) returns (found: Option<Show>)
      ensures found == Shows.Search(shows, target)
    {
      found := Shows.Search(shows, target);
    }

    /** Option 1 sorts by title, option 2 by rating; any other option is
        refused. */
    method Sort(option: int) returns (status: Status)
      modifies this
      ensures option == 1 ==> status == Ok && Sorted(ByTitle, shows)
      ensures option == 2 ==> status == Ok && Sorted(ByRating, shows)
      ensures option == 1 || option == 2 ==> multiset(shows) == multiset(old(shows))
      ensures option != 1 && option != 2 ==>
        status == Fail(InvalidSortOption) && shows == old(shows)
    {
      if option == 1 {
        shows := SortShows(ByTitle, shows);
      } else if option == 2 {
        shows := SortShows(ByRating, shows);
      } else {
        return Fail(InvalidSortOption);
      }
      status := Ok;
    }

    /** The text written to the queue file, one line per show. */
    method Save(codec: RatingCodec) returns (text: string)
      ensures text == Encode(codec, shows)
    {
      var q := shows;
      text := "";
      for i := 0 to |q|
        invariant text == Encode(codec, q[..i])
      {
        EncodeAppend(codec, q[..i], q[i]);
        assert q[..i + 1] == q[..i] + [q[i]];
        text := text + FormatLine(codec, q[i]) + "\n";
      }
      assert q[..|q|] == q;
    }

    /** The getline loop of loading: empties the queue, then appends, in
        order, the show `parse` makes of every line of `text` it accepts;
        a line it rejects is skipped. */
    method ReadLines(parse: string -> Option<Show>, text: string)
      modifies this
      ensures shows == Keep(parse, Lines(text))
    {
      shows := [];
      var rest := text;
      ghost var loaded := Keep(parse, Lines(text));
      while |rest| > 0
        invariant shows + Keep(parse, Lines(rest)) == loaded
        decreases |rest|
      {
        var (line, next) := GetLine(rest, '\n');
        var parsed := parse(line);
        LoadStep(parse, rest, shows);
        ghost var before := shows;
        if parsed.Some? {
          shows := shows + [parsed.value];
        }
        assert shows == before + Kept(parse, line);
        rest := next;
      }
      assert Lines(rest) == [];
    }

    /** Loads the queue from the file's text (a missing file is the empty
        text): every line whose fields parse becomes a show, in order.
        Returns the number of shows loaded. */
    method Load(codec: RatingCodec, text: string) returns (count: nat)
      modifies this
      ensures shows == Decode(codec, Lines(text))
      ensures count == |shows|
    {
      ReadLines(LineParser(codec), text);
      count := |shows|;
    }
  }
}
