/** The project carousel: a cursor over a non-empty list of projects moved by the
    previous/next buttons and the indicator dots, and a detail modal. */
module ProjectCarousel {

  import opened Wrappers

  // ---------------------------------------------------------------------------
  // Index arithmetic
  // ---------------------------------------------------------------------------

  /** `(prev + 1) % projects.length`; the operands are never negative, so JavaScript's
      truncating `%` and Dafny's agree. */
  function Next(i: nat, n: nat): (r: nat)
    requires i < n
    ensures r < n
    ensures i + 1 < n ==> r == i + 1
    ensures i == n - 1 ==> r == 0
  {
    (i + 1) % n
  }

  /** `(prev - 1 + projects.length) % projects.length`. */
  function Prev(i: nat, n: nat): (r: nat)
    requires i < n
    ensures r < n
    ensures 0 < i ==> r == i - 1
    ensures i == 0 ==> r == n - 1
  {
    (i - 1 + n) % n
  }

  /** `Prev` undoes `Next`. */
  lemma PrevNext(i: nat, n: nat)
    requires i < n
    ensures Prev(Next(i, n), n) == i
  {
  }

  /** `Next` undoes `Prev`. */
  lemma NextPrev(i: nat, n: nat)
    requires i < n
    ensures Next(Prev(i, n), n) == i
  {
  }

  /** `k` presses of the next button. */
  function NextTimes(i: nat, k: nat, n: nat): (r: nat)
    requires i < n
    ensures r < n
  {
    if k == 0 then i else Next(NextTimes(i, k - 1, n), n)
  }

  /** Before reaching the end, `k` presses move the cursor `k` places forward. */
  lemma {:induction false} NextTimesForward(i: nat, k: nat, n: nat)
    requires i + k < n
    ensures NextTimes(i, k, n) == i + k
  {
    if k > 0 {
      NextTimesForward(i, k - 1, n);
    }
  }

  /** Pressing `a + b` times is pressing `a` times and then `b` times. */
  lemma {:induction false} NextTimesSplit(i: nat, a: nat, b: nat, n: nat)
    requires i < n
    ensures NextTimes(i, a + b, n) == NextTimes(NextTimes(i, a, n), b, n)
  {
    if b > 0 {
      NextTimesSplit(i, a, b - 1, n);
    }
  }

  /** Pressing next once per project returns to the starting project. */
  lemma FullTurn(i: nat, n: nat)
    requires i < n
    ensures NextTimes(i, n, n) == i
  {
    var toEnd := n - 1 - i;
    NextTimesSplit(i, toEnd, 1 + i, n);
    NextTimesForward(i, toEnd, n);
    NextTimesSplit(n - 1, 1, i, n);
    assert NextTimes(n - 1, 1, n) == 0;
    NextTimesForward(0, i, n);
  }

  /** The indicator row: one dot per project, marked active when its position is the
      cursor. */
  function Indicators(n: nat, current: nat): (r: seq<bool>)
    requires current < n
    ensures |r| == n
    ensures forall k :: 0 <= k < n ==> (r[k] <==> k == current)
  {
    seq(n, k => k == current)
  }

  /** The number of active dots. */
  function ActiveCount(dots: seq<bool>): nat {
    if dots == [] then 0 else (if dots[0] then 1 else 0) + ActiveCount(dots[1..])
  }

  lemma {:induction false} ActiveCountNone(dots: seq<bool>)
    requires forall k :: 0 <= k < |dots| ==> !dots[k]
    ensures ActiveCount(dots) == 0
  {
    if dots != [] {
      ActiveCountNone(dots[1..]);
    }
  }

  lemma {:induction false} ActiveCountOne(dots: seq<bool>, j: nat)
    requires j < |dots| && forall k :: 0 <= k < |dots| ==> (dots[k] <==> k == j)
    ensures ActiveCount(dots) == 1
  {
    if j == 0 {
      ActiveCountNone(dots[1..]);
    } else {
      ActiveCountOne(dots[1..], j - 1);
    }
  }

  /** Exactly one indicator is active. */
  lemma OneActive(n: nat, current: nat)
    requires current < n
    ensures ActiveCount(Indicators(n, current)) == 1
  {
    ActiveCountOne(Indicators(n, current), current);
  }

  // ---------------------------------------------------------------------------
  // The component state
  // ---------------------------------------------------------------------------

  /** The component's state: the fixed `projects` list, the cursor and the project shown in
      the detail modal. */
  class Carousel<P(==)> {
    const projects: seq<P>
    var currentIndex: nat
    var selectedProject: Option<P>

    /** The cursor is on a project, and the modal shows one of the projects. */
    ghost predicate Valid()
      reads this
    {
      currentIndex < |projects|
      && (selectedProject.Some? ==> selectedProject.value in projects)
    }

    /** The first project is shown and the modal is closed. The slide renders
        `projects[currentIndex]`, so an empty list cannot be shown. */
    constructor(projects: seq<P>)
      requires |projects| > 0
      ensures this.projects == projects
      ensures currentIndex == 0 && selectedProject == None
      ensures Valid()
    {
      this.projects := projects;
      currentIndex := 0;
      selectedProject := None;
    }

    /** `currentProject`. */
    function CurrentProject(): (p: P)
      reads this
      requires Valid()
      ensures p in projects
    {
      projects[currentIndex]
    }

    /** The indicator row of the current state. */
    function Dots(): (r: seq<bool>)
      reads this
      requires Valid()
      ensures |r| == |projects|
      ensures forall k :: 0 <= k < |r| ==> (r[k] <==> k == currentIndex)
    {
      Indicators(|projects|, currentIndex)
    }

    /** The next button. */
    method NextSlide()
      requires Valid()
      modifies this
      ensures Valid()
      ensures currentIndex == Next(old(currentIndex), |projects|)
      ensures selectedProject == old(selectedProject)
    {
      currentIndex := (currentIndex + 1) % |projects|;
    }

    /** The previous button. */
    method PrevSlide()
      requires Valid()
      modifies this
      ensures Valid()
      ensures currentIndex == Prev(old(currentIndex), |projects|)
      ensures selectedProject == old(selectedProject)
    {
      currentIndex := (currentIndex - 1 + |projects|) % |projects|;
    }

    /** The indicator dot at position `k`; dots exist only at positions of the list. */
    method GoTo(k: nat)
      requires Valid() && k < |projects|
      modifies this
      ensures Valid()
      ensures currentIndex == k && Dots()[k]
      ensures selectedProject == old(selectedProject)
    {
      currentIndex := k;
    }

    /** The "View Details" button opens the modal on the current project. */
    method OpenDetails()
      requires Valid()
      modifies this
      ensures Valid()
      ensures selectedProject == Some(projects[currentIndex])
      ensures currentIndex == old(currentIndex)
    {
      selectedProject := Some(projects[currentIndex]);
    }

    /** The overlay or the close button closes the modal. */
    method CloseDetails()
      requires Valid()
      modifies this
      ensures Valid()
      ensures selectedProject == None
      ensures currentIndex == old(currentIndex)
    {
      selectedProject := None;
    }
  }
}
