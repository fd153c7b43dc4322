# Student-list pagination

A model of the script that paginates a pre-rendered list of students on a web
page. When it runs, the script does five things:

1. It scrapes every `<li>` of the student list into a record (avatar, name, e-mail, joining date) and removes it from the list.
2. It computes the page count as the ceiling of n / 10.
3. It appends one page link per page, numbered 1, 2, … and with link 1 active.
4. It cuts the records into pages of ten by shifting them one at a time out of the shared `students` array.
5. It renders a copy of the first page.

Clicking a link empties the list, moves the `active` class to that link and
renders a copy of the page with that number.

The model has two modules:

- `Pages` (`pages.dfy`) holds the values and the reference definitions:
  - `Student` and `Link`, and the constant `StudentsPerPage`;
  - the page count `NumberOfPages`;
  - `Chunks`, which cuts a sequence into runs of ten, and its inverse `Flatten`;
  - the page-size rules `WellPaged`;
  - `FirstActive`, the lookup of the active link.

  It also holds the lemmas that connect these definitions.
- `Script` (`script.dfy`) holds the script itself:
  - class `Paginator` has the script's globals (`students`, `numberOfPages`, `pages`) and the two DOM lists as sequence fields: `listItems` for the student list and `links` for the page links. Each function of the script is a method with a `while` loop in place of its tail recursion.
  - class `StudentArray` is a JavaScript array passed by reference, so `LoadStudents` visibly drains the copy it is given.
  - `VisitPage` is a client. It runs the whole script and then one click, and proves what the visitor sees.

`Paginator.Valid()` is the state after a successful start:

- there is one link per page, numbered in order;
- every page obeys the page-size rules;
- exactly one link is active, and the list shows that link's page.

`Start` establishes it and `LoadPage` preserves it.

## Model

| member | source | states |
|---|---|---|
| `Pages.NumberOfPages` | js/script.js:226 | The page count p is the ceiling of n / 10: n ≤ 10p, and 10(p−1) < n when p > 0. There are no pages exactly when there are no students. |
| `Pages.ChunksCount` | js/script.js:206-215 | Cutting n records into pages gives exactly NumberOfPages(n) pages, which is the number at which `createPages` stops. |
| `Pages.ChunksFlatten` | js/script.js:187-215 | Reading the pages in order gives back the scraped records in their original order. |
| `Pages.ChunksWellPaged` | js/script.js:187-199 | Every page holds 1 to 10 records. Every page except the last holds exactly 10, and the last page is non-empty. |
| `Pages.FlattenChunks` | js/script.js:187-215 | Conversely, pages that obey those size rules are exactly the chunking of their concatenation. |
| `Pages.ChunkAt` | js/script.js:187-215 | Page k (from 0) holds records 10k up to min(10(k+1), n). |
| `Pages.FirstActive` | js/script.js:141 | Finds the first link in document order that is active, or reports that none is. |
| `Script.StudentArray.constructor` | js/script.js:146 | The spread `[...page]` makes a fresh array holding the page's records. |
| `Script.Paginator.constructor` | js/script.js:15 | The document before the script runs: the markup's list items, no links, and no students or pages. |
| `Script.Paginator.GetStudentsFromList` | js/script.js:28-50 | Returns the list items' records in document order and leaves the student list with no children. |
| `Script.Paginator.EmptyStudentList` | js/script.js:102-112 | Leaves the student list empty and touches nothing else. |
| `Script.Paginator.LoadStudents` | js/script.js:118-128 | Appends the argument's records to the list in order and leaves the argument array empty. |
| `Script.Paginator.CreatePage` | js/script.js:187-199 | Shifts min(10, remaining) records off the front of `students` into the page, in order. |
| `Script.Paginator.CreatePages` | js/script.js:206-215 | Returns exactly the chunking of `students` into pages, and leaves `students` empty. |
| `Script.Paginator.CreatePageLinks` | js/script.js:156-180 | Appends `numberOfPages` links numbered 1..numberOfPages in order. Only link 1 is active, and existing links are untouched. |
| `Script.Paginator.Start` | js/script.js:221-237 | Sets the page count to ceil(n/10) and the pages to the chunking of the markup, and drains `students`. It succeeds exactly when n > 0, and then the state is valid with link 1 active and page 1 shown. With n = 0 it fails (the spread of `pages[0]` throws) and leaves no links, no pages and an empty list. |
| `Script.Paginator.LoadPage` | js/script.js:134-150 | After a click on link k, the list equals page k, exactly one link is active (link k), link numbers are unchanged, `pages` is unchanged and the state stays valid. |
| `Script.VisitPage` | js/script.js:134-150 | After the script has run on a markup of n students (lines 221-237) and link k is clicked, the list shows records 10(k−1) up to min(10k, n) of the markup. The active link is the one numbered k. |

## Left out

- `createStudentListItem` (js/script.js:56-97) builds the `<li>` markup: tags, class names, `src` and `textContent`. A rendered list item is modelled as the record it was made from.
- The lookups `querySelector`, `addEventListener`, `preventDefault` and `href = '#'` are browser plumbing and are not modelled. The lookup of the active link is modelled by `FirstActive`.
- The click handler's `parseInt(event.target.textContent)` (js/script.js:145) is not modelled. A click carries the integer number of the clicked link. The handler also reads the global `event` rather than its own `onclick` parameter (js/script.js:142, js/script.js:145). That is not modelled either.
- `Math.ceil` over floating-point division (js/script.js:226) is modelled as integer ceiling division, `(n + 9) / 10`. The two agree for every list length a page can hold.
- The script's default parameters are modelled only with their defaults, because the script never passes anything else. These are the accumulators of `getStudentsFromList`, `createPage` and `createPages`, and the starting number of `createPageLinks`.
- The pages held in `pages` are modelled as sequence values, not as shared arrays. The script never changes them after creating them, because `loadPage` and the initial load both pass a copy.
- Script.Paginator.Start: requires the markup's pagination list to be empty (`links == []`). Links already present in the markup are not modelled.
- Script.Paginator.CreatePages: requires `numberOfPages` to match the number of students left. The script's top level always sets it that way just before the call. With a mismatched count the source would create empty pages or stop early, and this is not modelled.
- Script.Paginator.LoadPage: requires the state after a successful start and a link number that was created. Clicks on anything other than a created link cannot happen in the page and are not modelled.
- The source is two near-identical copies of one script. Only `js/script.js` is modelled.
