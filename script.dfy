/** The page script: the student list on the page, the page links, and the
    script's globals (`students`, `numberOfPages`, `pages`), with the
    functions that scrape, cut into pages, render and switch pages. */
module Script {
  import opened Pages

  /** A JavaScript array of students, passed by reference: a callee that
      shifts from it empties the caller's array too. */
  class StudentArray {
    var items: seq<Student>

    constructor (items: seq<Student>)
      ensures this.items == items
    {
      this.items := items;
    }
  }

  class Paginator {
    /** The children of the student list, in document order; a rendered
        list item stands for the record it was made from. */
    var listItems: seq<Student>
    /** The scraped records not yet taken into a page. */
    var students: seq<Student>
    var numberOfPages: nat
    var pages: seq<seq<Student>>
    /** The anchors inside the pagination list, in document order. */
    var links: seq<Link>

    /** The document as loaded, before the script has run: the markup's
        list items and an empty pagination list. */
    constructor (markup: seq<Student>)
      ensures listItems == markup && links == []
      ensures students == [] && numberOfPages == 0 && pages == []
    {
      listItems := markup;
      students := [];
      numberOfPages := 0;
      pages := [];
      links := [];
    }

    /** Link `j` is the only active one and the list shows page `j`. */
    ghost predicate Shows(j: int)
      reads this
    {
      OnlyActive(links, j) && j < |pages| && listItems == pages[j]
    }

    /** The state after the script has run: one link per page, numbered in
        order, pages obeying the page-size rules, and the list showing the
        page of the single active link. */
    ghost predicate Valid()
      reads this
    {
      |pages| == numberOfPages == |links| &&
      WellPaged(pages) && Labelled(links) &&
      exists j :: Shows(j)
    }

    /** Removes the list items front to back and returns their records in
        document order. */
    method GetStudentsFromList() returns (scraped: seq<Student>)
      modifies this`listItems
      ensures scraped == old(listItems)
      ensures listItems == []
    {
      scraped := [];
      while listItems != []
        invariant scraped + listItems == old(listItems)
        decreases |listItems|
      {
        var li := listItems[0];
        listItems := listItems[1..];
        scraped := scraped + [li];
      }
    }

    /** Removes every child of the student list. */
    method EmptyStudentList()
      modifies this`listItems
      ensures listItems == []
    {
      while listItems != []
        decreases |listItems|
      {
        listItems := listItems[1..];
      }
    }

    /** Appends the records of `studentsToLoad` to the list in order,
        shifting each out of that array, which ends empty. */
    method LoadStudents(studentsToLoad: StudentArray)
      modifies this`listItems, studentsToLoad
      ensures listItems == old(listItems) + old(studentsToLoad.items)
      ensures studentsToLoad.items == []
    {
      while |studentsToLoad.items| != 0
        invariant listItems + studentsToLoad.items == old(listItems) + old(studentsToLoad.items)
        decreases |studentsToLoad.items|
      {
        var nextStudent := studentsToLoad.items[0];
        studentsToLoad.items := studentsToLoad.items[1..];
        listItems := listItems + [nextStudent];
      }
    }

    /** Shifts up to ten records from `students` into a new page. */
    method CreatePage() returns (page: seq<Student>)
      modifies this`students
      ensures |page| == Min(|old(students)|, StudentsPerPage)
      ensures page == old(students)[..|page|]
      ensures students == old(students)[|page|..]
    {
      page := [];
      while |page| != StudentsPerPage && |students| != 0
        invariant |page| <= StudentsPerPage
        invariant page + students == old(students)
        decreases |students|
      {
        var nextStudent := students[0];
        students := students[1..];
        page := page + [nextStudent];
      }
      assert old(students)[..|page|] == page;
    }

    /** Creates pages until there are `numberOfPages` of them, consuming
        `students`. */
    method CreatePages() returns (result: seq<seq<Student>>)
      requires numberOfPages == NumberOfPages(|students|)
      modifies this`students
      ensures result == Chunks(old(students))
      ensures students == []
    {
      result := [];
      ChunksCount(students);
      while |result| != numberOfPages
        invariant |result| <= numberOfPages
        invariant numberOfPages - |result| == NumberOfPages(|students|)
        invariant result + Chunks(students) == Chunks(old(students))
        decreases numberOfPages - |result|
      {
        ghost var before := students;
        var newPage := CreatePage();
        assert Chunks(before) == [newPage] + Chunks(students);
        result := result + [newPage];
      }
    }

    /** Appends one link per page, numbered from 1, the first one active. */
    method CreatePageLinks()
      modifies this`links
      ensures |links| == |old(links)| + numberOfPages
      ensures links[..|old(links)|] == old(links)
      ensures forall i :: |old(links)| <= i < |links| ==>
                links[i] == Link(i - |old(links)| + 1, i == |old(links)|)
    {
      var pageNumber := 1;
      while pageNumber <= numberOfPages
        invariant 1 <= pageNumber <= numberOfPages + 1
        invariant |links| == |old(links)| + pageNumber - 1
        invariant links[..|old(links)|] == old(links)
        invariant forall i :: |old(links)| <= i < |links| ==>
                    links[i] == Link(i - |old(links)| + 1, i == |old(links)|)
        decreases numberOfPages - pageNumber
      {
        links := links + [Link(pageNumber, pageNumber == 1)];
        pageNumber := pageNumber + 1;
      }
    }

    /** The script's top level: scrape the list, count the pages, create
        the links and the pages, then show a copy of the first page. With
        no students there is no first page and copying it throws, which
        `ok == false` reports. */
    method Start() returns (ok: bool)
      requires links == []
      modifies this
      ensures students == []
      ensures numberOfPages == NumberOfPages(|old(listItems)|)
      ensures pages == Chunks(old(listItems))
      ensures ok <==> old(listItems) != []
      ensures ok ==> Valid() && Shows(0)
      ensures !ok ==> listItems == [] && links == [] && pages == []
    {
      students := GetStudentsFromList();
      numberOfPages := NumberOfPages(|students|);
      CreatePageLinks();
      ChunksCount(students);
      ChunksWellPaged(students);
      pages := CreatePages();
      if |pages| == 0 {
        ok := false;
        return;
      }
      var firstPage := new StudentArray(pages[0]);
      LoadStudents(firstPage);
      ok := true;
      assert Shows(0);
    }

    /** Click on the link numbered `k`: empty the list, move the `active`
        class from the active link to the clicked one, and show a copy of
        page `k`. */
    method LoadPage(k: nat)
      requires Valid()
      requires 1 <= k <= numberOfPages
      modifies this`listItems, this`links
      ensures Valid() && Shows(k - 1)
      ensures listItems == pages[k - 1]
      ensures forall i :: 0 <= i < |links| ==> links[i].number == old(links)[i].number
    {
      ghost var j :| Shows(j);
      EmptyStudentList();
      assert links[j].active;
      var current := FirstActive(links).value;
      links := links[current := links[current].(active := false)];
      links := links[k - 1 := links[k - 1].(active := true)];
      var studentsToLoad := new StudentArray(pages[k - 1]);
      LoadStudents(studentsToLoad);
      assert Shows(k - 1);
    }
  }

  /** A visit to the page: the document loads with `markup` in its student
      list, the script runs, and the link numbered `k` is clicked. The list
      then shows the k-th run of ten records of the markup, and that link is
      the one marked active. */
  method VisitPage(markup: seq<Student>, k: nat) returns (visible: seq<Student>, activeNumber: nat)
    requires 1 <= k <= NumberOfPages(|markup|)
    ensures visible == markup[(k - 1) * StudentsPerPage .. Min(k * StudentsPerPage, |markup|)]
    ensures activeNumber == k
  {
    var page := new Paginator(markup);
    var ok := page.Start();
    page.LoadPage(k);
    visible := page.listItems;
    assert page.links[k - 1].active;
    var active := FirstActive(page.links);
    activeNumber := page.links[active.value].number;
    ChunkAt(markup, k - 1);
  }
}
