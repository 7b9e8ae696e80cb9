# Manual builder: booklet model and page navigator

This project models the core of a browser form that turns a manual (title,
category, description, cover colour and a list of steps) into a paginated
booklet. The booklet has a cover page and then one page per step, and the
user moves through it with "previous" and "next".

The model follows the `ManualBuilder` class and the global `removeStep`
function of `script.js`:

- `Text` says how a field value is trimmed.
- `Steps` collects the steps from the units of the step sub-form
  (`collectSteps`).
- `Pages` holds the manual, its pages, and the booklet built from a manual
  (`createPages`).
- `Builder.ManualBuilder` is the class whose fields `currentPage`, `pages`
  and `manualData` are updated in place by `generateManual`, `createPages`,
  `renderPages` and `navigatePage`.
- `Navigation` covers the bounded page move and what the navigation controls
  show (`updatePageNavigation`, `updatePageCounter`), as functions of the
  current index and the page count.
- `Form.StepForm` is the list of step units changed by `addStep` and
  `removeStep`.
- `Presentation` holds the category display name (`getCategoryName`) and
  the theme flip (`toggleTheme`).

The form fields that `generateManual` reads from the page are parameters of
`GenerateManual`. The units of the step sub-form are passed to it as a
sequence of (title, description) pairs.

Step numbers follow the code. Each collected step is numbered by its
position in the whole form, counted from 1 (`index + 1` at script.js:105).
When a unit in the middle is blank, the steps after it keep their own
positions, so the numbers have gaps: they are not made dense
(`Steps.CollectedGap`). Removing a unit from the
form does renumber the steps after it, because numbering is recomputed from
positions on every collection (`Form.RemovalRenumbers`).

## Model

| member | source | states |
|---|---|---|
| `Text.IsSpace` | script.js:100-101 | The characters that trimming removes: space, tab, line feed, carriage return, vertical tab, form feed, no-break space and the byte-order mark. |
| `Text.Trim` | script.js:100-101 | The `.trim()` of a field value: leading then trailing whitespace removed, never longer than the value. |
| `Text.TrimIsSlice` | script.js:100-101 | A trimmed value is the slice of the typed value from its first to its last non-space character; everything cut off on either side is whitespace. |
| `Text.TrimEmpty` | script.js:100-103 | A value trims to the empty string exactly when it is all whitespace, so the emptiness test at line 103 rejects exactly the blank fields. |
| `Text.TrimUnchanged` | script.js:100-101 | A value with no whitespace at either end is left unchanged by trimming. |
| `Text.TrimIdempotent` | script.js:100-101 | Trimming an already trimmed value changes nothing. |
| `Steps.Keeps` | script.js:103 | A unit is kept exactly when neither its title nor its description is all whitespace, which is when both trimmed values are non-empty. |
| `Steps.StepAt` | script.js:104-108 | The step built from the unit at position k has number k + 1, between 1 and the number of units, and its trimmed title and description are both non-empty exactly when the unit is kept. |
| `Steps.Collected` | script.js:95-113 | The reference definition of collection; it yields at most one step per unit. |
| `Steps.CollectSteps` | script.js:95-113 | The loop over the units returns exactly the reference collection: it appends a trimmed step for each unit whose two trimmed fields are non-empty, in form order. |
| `Steps.CollectedSound` | script.js:99-110 | Every collected step comes from a kept unit, holds that unit's trimmed title and description, and has a number between 1 and the number of units that is the unit's 1-based position. |
| `Steps.CollectedIncreasing` | script.js:99-105 | Step numbers strictly increase along the collected list, so kept units keep their relative order. |
| `Steps.CollectedComplete` | script.js:99-110 | Every unit with non-empty trimmed title and description appears among the collected steps, as the step built from it. |
| `Steps.CollectedKeepsExactly` | script.js:99-110 | A unit is kept if and only if some collected step carries its position as number. |
| `Steps.CollectedEmpty` | script.js:95-113 | No step is collected exactly when no unit has both trimmed fields non-empty. |
| `Steps.CollectedAppend` | script.js:99-105 | Collecting two stretches of units is collecting each, the second stretch's numbers raised by the length of the first. |
| `Steps.CollectedGap` | script.js:99-110 | With units kept, blank-titled, kept, the result is steps numbered 1 and 3: numbers are not made dense. |
| `Pages.StepPages` | script.js:124-130 | There is one step page per step, and page i shows step i. |
| `Pages.BookletPages` | script.js:115-130 | A booklet has one more page than the manual has steps; page 0 is the cover holding the manual and page i is the step page of step i - 1. |
| `Pages.BookletShowsSteps` | script.js:146-151 | The cover holds the manual, no later page is a cover, and the pages after the cover show exactly the manual's steps in order. |
| `Builder.ManualBuilder.constructor` | script.js:2-5 | A new builder shows page 0, has no pages and no manual, and satisfies the invariant. |
| `Builder.ManualBuilder.GenerateManual` | script.js:74-93 | The manual is replaced by the form fields and the collected steps in every case. The build succeeds exactly when some step was collected. On success the pages are the booklet of the new manual and page 0 is shown; otherwise pages and page index are unchanged. The invariant is kept. |
| `Builder.ManualBuilder.CreatePages` | script.js:115-133 | The pages become the booklet of the current manual, the cover is shown, and the invariant holds. |
| `Builder.ManualBuilder.View` | script.js:154-155 | The controls for the current state: the view of the shown page among the booklet's pages. |
| `Builder.ManualBuilder.ViewConsistent` | script.js:154-155 | Once a booklet exists, the controls for the current state have one mark per page, the shown page marked active, and a counter between 1 and the page count that is 1 exactly when "previous" is disabled and the last page exactly when "next" is disabled. |
| `Builder.ManualBuilder.RenderPages` | script.js:153 | Rendering shows the first page. |
| `Builder.ManualBuilder.NavigatePage` | script.js:208-216 | The page index becomes index + direction exactly when that lands inside the pages; otherwise it is unchanged. The invariant `0 <= currentPage < pages.length` is kept. |
| `Navigation.NavigatedIndex` | script.js:208-212 | A move either happens or is a no-op, and from a valid index it always yields a valid index. |
| `Navigation.ForwardStopsAtLast` | script.js:208-216 | Pressing "next" k times from page c reaches page min(c + k, last): no wrap-around past the end. |
| `Navigation.BackwardStopsAtCover` | script.js:208-216 | Pressing "previous" k times from page c reaches page max(c - k, 0): no wrap-around before the cover. |
| `Navigation.NavigationReversible` | script.js:208-216 | A one-page move that happened is undone by the opposite move. |
| `Navigation.ClassOf` | script.js:224-230 | A page is marked active exactly at the current index, "prev" exactly below it and "next" exactly above it. |
| `Navigation.PageClasses` | script.js:221-231 | The marks of all pages in page order, one per page. |
| `Navigation.PageClassesMarkEachPage` | script.js:221-231 | Page i is marked active if and only if i is the current index, "prev" if and only if it is lower, "next" if and only if it is higher. |
| `Navigation.ClassCounts` | script.js:221-231 | On a valid index exactly one page is active, `currentPage` pages are "prev" and the remaining `pages.length - 1 - currentPage` are "next". |
| `Navigation.ActiveCountUpTo` | script.js:221-231 | Among the first `count` pages one is active if the current index lies among them, and none otherwise. |
| `Navigation.PrevCountUpTo` | script.js:221-231 | Among the first `count` pages, min(current, count) are marked "prev". |
| `Navigation.NextCountUpTo` | script.js:221-231 | Among the first `count` pages, those above the current index are marked "next": count - 1 - current of them, or none. |
| `Navigation.PrevDisabled` | script.js:234 | "Previous" is disabled exactly on the cover, index 0. |
| `Navigation.NextDisabled` | script.js:235 | "Next" is disabled exactly on the last page, index count - 1. |
| `Navigation.ViewOf` | script.js:221-241 | The controls for page `current` of `count`: one mark per page, the two button states, and a counter reading current + 1 of count. |
| `Navigation.DisabledIffNoMove` | script.js:234-235 | "Previous" is disabled if and only if moving back would change nothing, and "next" is disabled if and only if moving forward would change nothing. |
| `Navigation.CounterInRange` | script.js:238-241 | The counter shows a page between 1 and the page count. It shows 1 exactly when "previous" is disabled, and the last page exactly when "next" is disabled. |
| `Navigation.OpenedOnCover` | script.js:153-155 | A booklet freshly opened on its cover, with at least one step, has the cover active and every other page "next". "Previous" is disabled, "next" is enabled, and the counter reads 1 of steps + 1. |
| `Presentation.CategoryName` | script.js:168-179 | A known category key shows its display name, and any other key shows as itself. |
| `Presentation.CategoryNameExamples` | script.js:168-179 | "electricite" shows with its accents, "menuiserie" capitalised, and an unknown key unchanged. |
| `Presentation.ToggledTheme` | script.js:46-48 | A toggle always yields "light" or "dark", and it yields "light" exactly when the theme was "dark". |
| `Presentation.ToggleTwice` | script.js:46-53 | Toggling twice restores the theme if and only if it was "light" or "dark". |
| `Form.StepForm.AddStep` | script.js:60-72 | Exactly one empty unit is appended at the end, and the form is non-empty afterwards. |
| `Form.StepForm.RemoveStep` | script.js:245-254 | The chosen unit is removed exactly when more than one unit exists; otherwise the list is unchanged. A non-empty form stays non-empty. |
| `Form.AddedUnitIgnored` | script.js:60-72 | A freshly added empty unit contributes no step to the next collection. |
| `Form.RemovalRenumbers` | script.js:99-105 | After a unit is removed, the steps before it are unchanged and each step after it is numbered one lower. |

## Left out

- DOM access is not modelled: reading fields, querying nodes, building HTML strings, writing `classList` and `style`, and the cover's text and gradient (script.js:56-57, 136-151, 158-166, 181-190, 192-206, 219-222). The page marks, button states and counter are the values of `Navigation.ViewOf`, and `ManualBuilder.View` gives them for the current state. `updatePageNavigation` walks the page's `.page` nodes rather than `this.pages`; the model counts `pages` instead, which assumes the HTML holds exactly one `.page` cover ahead of the container into which `renderPages` appends the step pages (index.html is not part of this model).
- The `alert` notifications (script.js:87, 252) are not modelled. They appear only as the `false` results of `GenerateManual` and `RemoveStep`.
- `e.preventDefault()`, the delayed book animation (`setTimeout`), `window.print()`, the event-listener wiring and the keyboard shortcuts are not modelled. They are host event and timing plumbing (script.js:11-38, 75, 197-200).
- `showBook` and `backToForm` only switch which section is visible. They hold no model state (script.js:192-206).
- `localStorage` persistence and `loadTheme`'s default are not modelled. The theme is a string in the model; the attribute read and the storage write around the flip are not (script.js:40-44, 50-52).
- The creation date uses the host's French date formatting. It is not modelled (script.js:162).
- `Text.IsSpace` accepts space, tab, line feed, carriage return, vertical tab, form feed, no-break space and the byte-order mark. The other characters JavaScript's `trim` also removes are not modelled: U+1680, U+2000 to U+200A, U+202F, U+205F, U+3000, and the line and paragraph separators U+2028 and U+2029.
- `Presentation.CategoryName` treats the category table as a plain map. Property names that any JavaScript object inherits (such as `toString`) would be looked up on the object's prototype; that is not modelled.
- The step units the form starts with come from the page's HTML, which is not part of this model. `Form.StepForm`'s constructor takes them as a parameter, and its `Valid` holds when at least one is given.
- What the user types into a unit's fields is input to the model, not an operation of it. `GenerateManual` receives the units' current values as a sequence.
