/** The booklet builder: the manual last read from the form, the pages of the
    booklet built from it and the page being shown. */
module Builder {
  import opened Steps
  import opened Pages
  import opened Navigation

  datatype Option<T> = None | Some(value: T)

  class ManualBuilder {
    /** Index of the page being shown. */
    var currentPage: int
    /** The booklet's pages; empty until a booklet has first been built. */
    var pages: seq<Page>
    /** The manual last read from the form; none before the first read. */
    var manualData: Option<ManualData>

    /** Before the first booklet the index is 0; afterwards it names one of
        the pages, and the pages are the booklet of the manual on their
        cover. */
    ghost predicate Valid()
      reads this
    {
      && 0 <= currentPage
      && (pages == [] ==> currentPage == 0)
      && (pages != [] ==>
            && currentPage < |pages|
            && pages[0].Cover?
            && pages == BookletPages(pages[0].manual))
    }

    constructor ()
      ensures Valid()
      ensures currentPage == 0 && pages == [] && manualData == None
    {
      currentPage := 0;
      pages := [];
      manualData := None;
    }

    /** Reads the manual from the form and, when at least one step was
        collected, rebuilds the booklet and opens it on its cover. The manual
        is replaced even when no step was collected; the booklet and the page
        shown are then left as they were. */
    method GenerateManual(title: string, category: string, description: string,
                          coverColor: string, entries: seq<RawEntry>) returns (built: bool)
      requires Valid()
      modifies this
      ensures Valid()
      ensures manualData == Some(ManualData(title, category, description, coverColor, Collected(entries)))
      ensures built <==> Collected(entries) != []
      ensures built ==> pages == BookletPages(manualData.value) && currentPage == 0
      ensures !built ==> pages == old(pages) && currentPage == old(currentPage)
    {
      var steps := CollectSteps(entries);
      manualData := Some(ManualData(title, category, description, coverColor, steps));
      if |steps| == 0 {
        return false;
      }
      CreatePages();
      built := true;
    }

    /** Rebuilds the pages from the current manual: the cover, then one page
        per step, in order; then shows the cover. */
    method CreatePages()
      requires manualData.Some?
      modifies this`pages, this`currentPage
      ensures Valid()
      ensures pages == BookletPages(manualData.value)
      ensures currentPage == 0
    {
      var m := manualData.value;
      pages := [Cover(m)];
      var i := 0;
      while i < |m.steps|
        invariant 0 <= i <= |m.steps|
        invariant |pages| == i + 1 && pages[0] == Cover(m)
        invariant forall k :: 1 <= k <= i ==> pages[k] == StepPage(m.steps[k - 1])
      {
        pages := pages + [StepPage(m.steps[i])];
        i := i + 1;
      }
      assert pages == BookletPages(m);
      RenderPages();
    }

    /** Shows the first page of a freshly built booklet. */
    method RenderPages()
      modifies this`currentPage
      ensures currentPage == 0
    {
      currentPage := 0;
    }

    /** Moves `direction` pages if that lands on a page of the booklet, and
        otherwise changes nothing. */
    method NavigatePage(direction: int)
      requires Valid()
      modifies this`currentPage
      ensures Valid()
      ensures 0 <= old(currentPage) + direction < |pages| ==> currentPage == old(currentPage) + direction
      ensures !(0 <= old(currentPage) + direction < |pages|) ==> currentPage == old(currentPage)
      ensures currentPage == NavigatedIndex(old(currentPage), direction, |pages|)
    {
      var newPage := currentPage + direction;
      if 0 <= newPage < |pages| {
        currentPage := newPage;
      }
    }

    /** What the navigation controls show for the current state. */
    function View(): NavigationView
      reads this
    {
      ViewOf(currentPage, |pages|)
    }

    /** Once a booklet exists, its controls have one mark per page with the
        shown page active, and a counter between 1 and the page count that
        is at its ends exactly when the matching button is disabled. */
    lemma ViewConsistent()
      requires Valid() && pages != []
      ensures var r := View();
              && |r.classes| == r.total == |pages|
              && r.classes[currentPage] == Active
              && 1 <= r.shown <= r.total
              && (r.prevDisabled <==> r.shown == 1)
              && (r.nextDisabled <==> r.shown == r.total)
    {
      PageClassesMarkEachPage(currentPage, |pages|, currentPage);
      CounterInRange(currentPage, |pages|);
    }
  }
}
