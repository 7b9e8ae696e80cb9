/** Moving through the booklet and what the navigation controls show, as
    functions of the current page index and the number of pages. */
module Navigation {

  /** The index reached by moving `direction` pages from `current` in a
      booklet of `count` pages: the move happens only if it lands on a page,
      otherwise the index stays where it was (no wrap-around, no clamping). */
  function NavigatedIndex(current: int, direction: int, count: int): (r: int)
    ensures r == current || r == current + direction
    ensures 0 <= current < count ==> 0 <= r < count
  {
    var newPage := current + direction;
    if 0 <= newPage < count then newPage else current
  }

  /** The index reached after `times` moves of `direction`. */
  function Repeated(current: int, direction: int, times: nat, count: int): int
    decreases times
  {
    if times == 0 then current
    else Repeated(NavigatedIndex(current, direction, count), direction, times - 1, count)
  }

  function Min(a: int, b: int): int { if a <= b then a else b }

  function Max(a: int, b: int): int { if a <= b then b else a }

  /** Pressing "next" `times` times from a valid page goes that many pages
      forward, and stops at the last page. */
  lemma {:induction false} ForwardStopsAtLast(current: int, times: nat, count: int)
    requires 0 <= current < count
    ensures Repeated(current, 1, times, count) == Min(current + times, count - 1)
    decreases times
  {
    if times > 0 {
      ForwardStopsAtLast(NavigatedIndex(current, 1, count), times - 1, count);
    }
  }

  /** Pressing "previous" `times` times from a valid page goes that many pages
      back, and stops at the cover. */
  lemma {:induction false} BackwardStopsAtCover(current: int, times: nat, count: int)
    requires 0 <= current < count
    ensures Repeated(current, -1, times, count) == Max(current - times, 0)
    decreases times
  {
    if times > 0 {
      BackwardStopsAtCover(NavigatedIndex(current, -1, count), times - 1, count);
    }
  }

  /** A one-page move that happened is undone by the opposite move. */
  lemma NavigationReversible(current: int, direction: int, count: int)
    requires 0 <= current < count
    requires direction == 1 || direction == -1
    requires NavigatedIndex(current, direction, count) != current
    ensures NavigatedIndex(NavigatedIndex(current, direction, count), -direction, count) == current
  {
  }

  /** How a page is marked for its transition: the current page is active,
      the pages before it are behind ("prev"), the pages after it ahead
      ("next"). */
  datatype PageClass = Active | Prev | Next

  function ClassOf(index: int, current: int): (r: PageClass)
    ensures r == Active <==> index == current
    ensures r == Prev <==> index < current
    ensures r == Next <==> index > current
  {
    if index == current then Active
    else if index < current then Prev
    else Next
  }

  /** The marks of the pages `0 .. count - 1`, in page order. */
  function PageClasses(current: int, count: nat): (r: seq<PageClass>)
    ensures |r| == count
  {
    if count == 0 then [] else PageClasses(current, count - 1) + [ClassOf(count - 1, current)]
  }

  /** Each page is marked by where it lies relative to the current page:
      active exactly at `current`, "prev" exactly before it, "next" exactly
      after it. */
  lemma {:induction false} PageClassesMarkEachPage(current: int, count: nat, i: nat)
    requires i < count
    ensures PageClasses(current, count)[i] == Active <==> i == current
    ensures PageClasses(current, count)[i] == Prev <==> i < current
    ensures PageClasses(current, count)[i] == Next <==> i > current
  {
    if i < count - 1 {
      PageClassesMarkEachPage(current, count - 1, i);
    }
  }

  /** How many of `marks` equal `c`. */
  function Occurrences(marks: seq<PageClass>, c: PageClass): nat {
    if marks == [] then 0
    else Occurrences(marks[..|marks| - 1], c) + (if marks[|marks| - 1] == c then 1 else 0)
  }

  /** On a valid page exactly one page is active, `current` pages are behind
      it and the rest are ahead of it. */
  lemma ClassCounts(current: int, count: nat)
    requires 0 <= current < count
    ensures Occurrences(PageClasses(current, count), Active) == 1
    ensures Occurrences(PageClasses(current, count), Prev) == current
    ensures Occurrences(PageClasses(current, count), Next) == count - 1 - current
  {
    ActiveCountUpTo(current, count);
    PrevCountUpTo(current, count);
    NextCountUpTo(current, count);
  }

  // The three counts for any number of pages, each by induction on it.

  lemma {:induction false} ActiveCountUpTo(current: nat, count: nat)
    ensures Occurrences(PageClasses(current, count), Active) == if current < count then 1 else 0
  {
    if count > 0 {
      ActiveCountUpTo(current, count - 1);
      OccurrencesAppendOne(PageClasses(current, count - 1), ClassOf(count - 1, current), Active);
    }
  }

  lemma {:induction false} PrevCountUpTo(current: nat, count: nat)
    ensures Occurrences(PageClasses(current, count), Prev) == Min(current, count)
  {
    if count > 0 {
      var last := ClassOf(count - 1, current);
      PrevCountUpTo(current, count - 1);
      OccurrencesAppendOne(PageClasses(current, count - 1), last, Prev);
      assert Occurrences(PageClasses(current, count), Prev)
          == Min(current, count - 1) + (if count - 1 < current then 1 else 0);
    }
  }

  lemma {:induction false} NextCountUpTo(current: nat, count: nat)
    ensures Occurrences(PageClasses(current, count), Next) == if current < count then count - 1 - current else 0
  {
    if count > 0 {
      var prefix := PageClasses(current, count - 1);
      var last := ClassOf(count - 1, current);
      assert PageClasses(current, count) == prefix + [last];
      NextCountUpTo(current, count - 1);
      OccurrencesAppendOne(prefix, last, Next);
      if current < count - 1 {
        assert last == Next && Occurrences(prefix, Next) == count - 2 - current;
      } else if current == count - 1 {
        assert last == Active && Occurrences(prefix, Next) == 0;
      } else {
        assert last == Prev && Occurrences(prefix, Next) == 0;
      }
    }
  }

  lemma OccurrencesAppendOne(marks: seq<PageClass>, x: PageClass, c: PageClass)
    ensures Occurrences(marks + [x], c) == Occurrences(marks, c) + (if x == c then 1 else 0)
  {
    assert (marks + [x])[..|marks|] == marks;
  }

  /** The "previous" button is disabled on the cover. */
  predicate PrevDisabled(current: int) {
    current == 0
  }

  /** The "next" button is disabled on the last page. */
  predicate NextDisabled(current: int, count: int) {
    current == count - 1
  }

  /** A button is disabled exactly when pressing it would change nothing. */
  lemma DisabledIffNoMove(current: int, count: int)
    requires 0 <= current < count
    ensures PrevDisabled(current) <==> NavigatedIndex(current, -1, count) == current
    ensures NextDisabled(current, count) <==> NavigatedIndex(current, 1, count) == current
  {
  }

  /** Everything the navigation controls show. */
  datatype NavigationView = NavigationView(
    classes: seq<PageClass>,
    prevDisabled: bool,
    nextDisabled: bool,
    shown: int,
    total: int)

  /** The controls for page `current` of `count`: the page marks, the two
      buttons, and the counter "`current + 1` of `count`". */
  function ViewOf(current: int, count: nat): (r: NavigationView)
    ensures |r.classes| == r.total == count
    ensures r.shown == current + 1
  {
    NavigationView(
      PageClasses(current, count),
      PrevDisabled(current),
      NextDisabled(current, count),
      current + 1,
      count)
  }

  /** On a valid page the counter shows a page between 1 and the total; it
      shows the first page exactly when "previous" is disabled and the last
      exactly when "next" is disabled. */
  lemma CounterInRange(current: int, count: nat)
    requires 0 <= current < count
    ensures 1 <= ViewOf(current, count).shown <= ViewOf(current, count).total == count
    ensures ViewOf(current, count).shown == 1 <==> ViewOf(current, count).prevDisabled
    ensures ViewOf(current, count).shown == count <==> ViewOf(current, count).nextDisabled
  {
  }

  /** A booklet just opened on its cover, with at least one step page: the
      cover is active, every other page is ahead, "previous" is disabled,
      "next" is enabled and the counter reads 1. */
  lemma OpenedOnCover(steps: nat)
    requires steps >= 1
    ensures var v := ViewOf(0, steps + 1);
            && v.classes[0] == Active
            && (forall i :: 1 <= i <= steps ==> v.classes[i] == Next)
            && v.prevDisabled && !v.nextDisabled
            && v.shown == 1 && v.total == steps + 1
  {
    var classes := PageClasses(0, steps + 1);
    forall i | 0 <= i <= steps
      ensures classes[i] == if i == 0 then Active else Next
    {
      PageClassesMarkEachPage(0, steps + 1, i);
    }
  }
}
