/** The manual built from the form and the pages of its booklet. */
module Pages {
  import opened Steps

  /** The manual as read from the form: its fields as typed and its
      collected steps. */
  datatype ManualData = ManualData(
    title: string,
    category: string,
    description: string,
    coverColor: string,
    steps: seq<Step>)

  /** A page of the booklet: the cover shows the whole manual, a step page
      one step. */
  datatype Page = Cover(manual: ManualData) | StepPage(step: Step)

  /** One step page per step, in the order of the steps. */
  function StepPages(steps: seq<Step>): (r: seq<Page>)
    ensures |r| == |steps|
    ensures forall i :: 0 <= i < |steps| ==> r[i] == StepPage(steps[i])
  {
    if steps == [] then [] else [StepPage(steps[0])] + StepPages(steps[1..])
  }

  /** The booklet of `m`: the cover first, then the page of each step. */
  function BookletPages(m: ManualData): (r: seq<Page>)
    ensures |r| == |m.steps| + 1
    ensures r[0] == Cover(m)
    ensures forall i :: 1 <= i < |r| ==> r[i] == StepPage(m.steps[i - 1])
  {
    [Cover(m)] + StepPages(m.steps)
  }

  /** The steps that a run of pages shows, in page order; a cover shows none. */
  function StepsShown(pages: seq<Page>): seq<Step> {
    if pages == [] then []
    else
      (match pages[0]
       case Cover(_) => []
       case StepPage(s) => [s]) + StepsShown(pages[1..])
  }

  /** The pages after the cover show exactly the manual's steps, in order,
      and the cover is the only cover. */
  lemma {:induction false} BookletShowsSteps(m: ManualData)
    ensures BookletPages(m)[0].manual == m
    ensures StepsShown(BookletPages(m)[1..]) == m.steps
    ensures forall i :: 1 <= i < |BookletPages(m)| ==> !BookletPages(m)[i].Cover?
  {
    assert BookletPages(m)[1..] == StepPages(m.steps);
    StepPagesShowSteps(m.steps);
  }

  lemma {:induction false} StepPagesShowSteps(steps: seq<Step>)
    ensures StepsShown(StepPages(steps)) == steps
  {
    if steps != [] {
      StepPagesShowSteps(steps[1..]);
      assert StepPages(steps)[1..] == StepPages(steps[1..]);
    }
  }
}
