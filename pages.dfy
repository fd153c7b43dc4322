/** The records of the student list, the page-size rule and the reference
    definition of how a list of records is cut into pages. */
module Pages {

  datatype Option<T> = None | Some(value: T)

  /** One student as scraped from a list item: avatar URL, name, e-mail and
      joining date, all kept as the text the markup holds. */
  datatype Student = Student(avatar: string, name: string, email: string, joined: string)

  /** A page link: the page number it shows and whether it carries the
      `active` class. */
  datatype Link = Link(number: nat, active: bool)

  /** Number of students shown on one page. */
  const StudentsPerPage: nat := 10

  function Min(a: nat, b: nat): nat { if a < b then a else b }

  /** The number of pages needed for `n` students: the ceiling of n / 10. */
  function NumberOfPages(n: nat): (p: nat)
    ensures n <= p * StudentsPerPage
    ensures p == 0 || (p - 1) * StudentsPerPage < n
    ensures p == 0 <==> n == 0
  {
    (n + StudentsPerPage - 1) / StudentsPerPage
  }

  /** Reference definition of the pages: successive runs of ten records,
      the last run holding whatever is left over. */
  function Chunks(s: seq<Student>): seq<seq<Student>>
    decreases |s|
  {
    if |s| == 0 then []
    else
      var k := Min(|s|, StudentsPerPage);
      [s[..k]] + Chunks(s[k..])
  }

  /** The pages read one after the other. */
  function Flatten(pages: seq<seq<Student>>): seq<Student>
  {
    if |pages| == 0 then [] else pages[0] + Flatten(pages[1..])
  }

  /** Every page holds between one and ten records, and every page but the
      last holds exactly ten. */
  ghost predicate WellPaged(pages: seq<seq<Student>>)
  {
    (forall i :: 0 <= i < |pages| ==> 0 < |pages[i]| <= StudentsPerPage) &&
    (forall i :: 0 <= i < |pages| - 1 ==> |pages[i]| == StudentsPerPage)
  }

  /** The links are numbered 1, 2, ... in document order. */
  ghost predicate Labelled(links: seq<Link>)
  {
    forall i :: 0 <= i < |links| ==> links[i].number == i + 1
  }

  /** Link `j` is active and no other link is. */
  ghost predicate OnlyActive(links: seq<Link>, j: int)
  {
    0 <= j < |links| &&
    forall i :: 0 <= i < |links| ==> (links[i].active <==> i == j)
  }

  /** The first link, in document order, that carries the `active` class;
      None when there is none (the lookup then yields null). */
  function FirstActive(links: seq<Link>): (r: Option<nat>)
    ensures r.None? ==> forall i :: 0 <= i < |links| ==> !links[i].active
    ensures r.Some? ==> r.value < |links| && links[r.value].active
    ensures r.Some? ==> forall i :: 0 <= i < r.value ==> !links[i].active
  {
    if |links| == 0 then None
    else if links[0].active then Some(0)
    else
      match FirstActive(links[1..])
      case None => None
      case Some(i) => Some(i + 1)
  }

  /** Cutting `s` into pages gives exactly NumberOfPages(|s|) pages. */
  lemma {:induction false} ChunksCount(s: seq<Student>)
    ensures |Chunks(s)| == NumberOfPages(|s|)
    decreases |s|
  {
    if |s| > 0 {
      var k := Min(|s|, StudentsPerPage);
      ChunksCount(s[k..]);
    }
  }

  /** Reading the pages in order gives back the records in their order. */
  lemma {:induction false} ChunksFlatten(s: seq<Student>)
    ensures Flatten(Chunks(s)) == s
    decreases |s|
  {
    if |s| > 0 {
      var k := Min(|s|, StudentsPerPage);
      ChunksFlatten(s[k..]);
      assert s[..k] + s[k..] == s;
    }
  }

  /** The pages obey the page-size rules; in particular the last page is
      never empty. */
  lemma {:induction false} ChunksWellPaged(s: seq<Student>)
    ensures WellPaged(Chunks(s))
    decreases |s|
  {
    if |s| > 0 {
      var k := Min(|s|, StudentsPerPage);
      ChunksWellPaged(s[k..]);
      var rest := Chunks(s[k..]);
      assert Chunks(s) == [s[..k]] + rest;
      if |rest| > 0 {
        assert |s[k..]| > 0;
        assert k == StudentsPerPage;
      }
    }
  }

  /** Conversely, pages that obey the page-size rules are exactly the
      chunking of their concatenation. */
  lemma {:induction false} FlattenChunks(pages: seq<seq<Student>>)
    requires WellPaged(pages)
    ensures Chunks(Flatten(pages)) == pages
    decreases |pages|
  {
    if |pages| > 0 {
      var s := Flatten(pages);
      var rest := pages[1..];
      assert WellPaged(rest) by {
        forall i | 0 <= i < |rest| ensures 0 < |rest[i]| <= StudentsPerPage {
          assert rest[i] == pages[i + 1];
        }
        forall i | 0 <= i < |rest| - 1 ensures |rest[i]| == StudentsPerPage {
          assert rest[i] == pages[i + 1];
        }
      }
      FlattenChunks(rest);
      assert s == pages[0] + Flatten(rest);
      var k := Min(|s|, StudentsPerPage);
      if |rest| == 0 {
        assert s == pages[0];
        assert k == |pages[0]|;
      } else {
        assert |pages[0]| == StudentsPerPage;
        assert k == |pages[0]|;
      }
      assert s[..k] == pages[0];
      assert s[k..] == Flatten(rest);
    }
  }

  /** Page `k` (counting from 0) holds records 10k up to 10(k+1) or the end
      of the list, whichever comes first. */
  lemma {:induction false} ChunkAt(s: seq<Student>, k: nat)
    requires k < NumberOfPages(|s|)
    ensures |Chunks(s)| == NumberOfPages(|s|)
    ensures Chunks(s)[k] == s[k * StudentsPerPage .. Min((k + 1) * StudentsPerPage, |s|)]
    decreases |s|
  {
    ChunksCount(s);
    var m := Min(|s|, StudentsPerPage);
    if k > 0 {
      var t := s[m..];
      assert m == StudentsPerPage;
      ChunkAt(t, k - 1);
      assert Chunks(s)[k] == Chunks(t)[k - 1];
      assert t[(k - 1) * StudentsPerPage .. Min(k * StudentsPerPage, |t|)]
          == s[k * StudentsPerPage .. Min((k + 1) * StudentsPerPage, |s|)];
    }
  }
}
