/**
 Lists that are filtered and rewritten row by row, and when doing so twice changes nothing more.
 */
module Projection {
  import opened Basics
  import opened Greedy

  function Project<T, U>(rows: seq<T>, project: T -> Option<U>): seq<U> {
    if rows == [] then []
    else
      var last := project(rows[|rows| - 1]);
      Project(rows[..|rows| - 1], project) + if last.Some? then [last.value] else []
  }

  lemma ProjectOneMore<T, U>(front: seq<T>, last: T, project: T -> Option<U>)
    ensures Project(front + [last], project)
            == Project(front, project) + if project(last).Some? then [project(last).value] else []
  {
  }

  // Exactly the rows that have a projection, in order.
  ghost predicate ProjectsAt<T(!new), U(!new)>(rows: seq<T>, project: T -> Option<U>, places: seq<nat>, out: seq<U>) {
    && Increasing(places, |rows|) && |out| == |places|
    && (forall i: nat :: i < |rows| ==> (i in places <==> project(rows[i]).Some?))
    && (forall k :: 0 <= k < |places| ==> project(rows[places[k]]) == Some(out[k]))
  }

  lemma ProjectsOneMore<T(!new), U(!new)>(rows: seq<T>, project: T -> Option<U>, places: seq<nat>, out: seq<U>, n: nat)
    requires n + 1 == |rows| && ProjectsAt(rows[..n], project, places, out)
    ensures project(rows[n]).None? ==> ProjectsAt(rows, project, places, out)
    ensures project(rows[n]).Some? ==> ProjectsAt(rows, project, places + [n], out + [project(rows[n]).value])
  {
    forall i: nat | i < n
      ensures i in places <==> project(rows[i]).Some?
    {
      assert rows[..n][i] == rows[i];
    }
  }

  lemma {:induction false} ProjectPlaces<T(!new), U(!new)>(rows: seq<T>, project: T -> Option<U>)
    returns (places: seq<nat>)
    ensures ProjectsAt(rows, project, places, Project(rows, project))
  {
    places := [];
    if rows != [] {
      var n := |rows| - 1;
      places := ProjectPlaces(rows[..n], project);
      ProjectsOneMore(rows, project, places, Project(rows[..n], project), n);
      if project(rows[n]).Some? { places := places + [n]; }
    }
  }

  // The rows a cut to the limit loses.
  function Beyond<T>(rows: seq<T>, limit: nat): seq<T> {
    if |rows| <= limit then [] else rows[limit..]
  }

  lemma CutSplits<T>(rows: seq<T>, limit: nat)
    ensures rows == Take(rows, limit) + Beyond(rows, limit)
  {
  }

  // Two parts of a list stay its parts when it grows and one of them takes the new row.
  lemma PartsGrow<T>(a: seq<T>, b: seq<T>, all: seq<T>, row: T)
    requires multiset(a) + multiset(b) == multiset(all)
    ensures multiset(a + [row]) + multiset(b + []) == multiset(all + [row])
    ensures multiset(a + []) + multiset(b + [row]) == multiset(all + [row])
  {
    assert a + [] == a && b + [] == b;
  }

  ghost predicate Settles<T(!new)>(project: T -> Option<T>) {
    forall row :: project(row).Some? ==> project(project(row).value) == Some(project(row).value)
  }

  ghost predicate AllFixed<T>(rows: seq<T>, project: T -> Option<T>) {
    forall i :: 0 <= i < |rows| ==> project(rows[i]) == Some(rows[i])
  }

  lemma {:induction false} ProjectedFrom<T, U>(rows: seq<T>, project: T -> Option<U>, k: nat) returns (i: nat)
    requires k < |Project(rows, project)|
    ensures i < |rows| && project(rows[i]) == Some(Project(rows, project)[k])
  {
    var n := |rows| - 1;
    if k < |Project(rows[..n], project)| {
      i := ProjectedFrom(rows[..n], project, k);
    } else {
      i := n;
    }
  }

  lemma {:induction false} ProjectIsShorter<T, U>(rows: seq<T>, project: T -> Option<U>)
    ensures |Project(rows, project)| <= |rows|
  {
    if rows != [] { ProjectIsShorter(rows[..|rows| - 1], project); }
  }

  lemma ProjectedIsFixed<T(!new)>(rows: seq<T>, project: T -> Option<T>)
    requires Settles(project)
    ensures AllFixed(Project(rows, project), project)
  {
  }

  lemma {:induction false} FixedStays<T>(rows: seq<T>, project: T -> Option<T>)
    requires AllFixed(rows, project)
    ensures Project(rows, project) == rows
  {
    if rows != [] {
      var n := |rows| - 1;
      FixedStays(rows[..n], project);
      assert rows == rows[..n] + [rows[n]];
    }
  }

  // Cutting before or after, a settled projection is done once.
  lemma ProjectTwice<T(!new)>(rows: seq<T>, project: T -> Option<T>, limit: nat)
    requires Settles(project)
    ensures var once := Project(Take(rows, limit), project);
            |once| <= limit && Project(Take(once, limit), project) == once
    ensures var once := Take(Project(rows, project), limit);
            Take(Project(once, project), limit) == once
  {
    ProjectIsShorter(Take(rows, limit), project);
    ProjectedIsFixed(Take(rows, limit), project);
    FixedStays(Project(Take(rows, limit), project), project);
    ProjectedIsFixed(rows, project);
    FixedStays(Take(Project(rows, project), limit), project);
  }

  // dict.fromkeys: the first of each.
  function Uniques<T(==)>(rows: seq<T>): seq<T> {
    if rows == [] then []
    else
      var front := Uniques(rows[..|rows| - 1]);
      if rows[|rows| - 1] in front then front else front + [rows[|rows| - 1]]
  }

  lemma UniquesOfOneMore<T>(front: seq<T>, last: T)
    ensures Uniques(front + [last]) == if last in Uniques(front) then Uniques(front) else Uniques(front) + [last]
  {
    assert (front + [last])[..|front|] == front;
  }

  lemma {:induction false} UniquesHold<T>(rows: seq<T>)
    ensures Distinct(Uniques(rows)) && |Uniques(rows)| <= |rows|
    ensures forall x :: x in Uniques(rows) <==> x in rows
  {
    if rows != [] {
      UniquesHold(rows[..|rows| - 1]);
      assert rows == rows[..|rows| - 1] + [rows[|rows| - 1]];
    }
  }

  lemma {:induction false} DistinctStays<T>(rows: seq<T>)
    requires Distinct(rows)
    ensures Uniques(rows) == rows
  {
    if rows != [] {
      var n := |rows| - 1;
      DistinctStays(rows[..n]);
      assert rows == rows[..n] + [rows[n]];
    }
  }
}
