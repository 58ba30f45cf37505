/** Which images a collection shows when groups are collapsed: of every group with a matching
    image one representative, of the expanded group all matches and its leader. */
module Grouping {

  /** A row of the image table; a group is named by the id of its leader. */
  datatype Image = Image(id: int, group: int)

  /** The primary key of the table. */
  predicate DistinctIds(rows: seq<Image>) {
    forall i, j :: 0 <= i < j < |rows| ==> rows[i].id != rows[j].id
  }

  /** What the query minimises: distance to the leader, ids above it first. */
  function Weight(i: Image): nat {
    var d := i.id - i.group;
    (if d < 0 then -d else d) * 2 + if d < 0 then 1 else 0
  }

  /** One pass over the table, grouping the matching rows and keeping with each group the
      row of least weight met so far. */
  function Aggregate(rows: seq<Image>, matches: Image -> bool): map<int, Image> {
    if rows == [] then map[]
    else
      var m, r := Aggregate(rows[..|rows| - 1], matches), rows[|rows| - 1];
      if matches(r) && (r.group !in m || Weight(r) < Weight(m[r.group])) then m[r.group := r] else m
  }

  /** The ids the nested query selects. */
  predicate Picked(rows: seq<Image>, matches: Image -> bool, id: int) {
    exists g :: g in Aggregate(rows, matches) && Aggregate(rows, matches)[g].id == id
  }

  /** The condition of the whole query on one row. */
  predicate Shown(rows: seq<Image>, matches: Image -> bool, expanded: int, i: Image) {
    (matches(i) && (i.group == expanded || Picked(rows, matches, i.id))) || i.id == expanded
  }

  // ----- the representative of a group -----

  predicate Matched(rows: seq<Image>, matches: Image -> bool, g: int) {
    exists i :: i in rows && matches(i) && i.group == g
  }

  /** The closest matching image of its group, the one above the leader when two are
      equally close. */
  predicate Closest(rows: seq<Image>, matches: Image -> bool, i: Image) {
    && i in rows && matches(i)
    && forall j :: j in rows && matches(j) && j.group == i.group && j != i ==> Closer(i, j)
  }

  predicate Closer(i: Image, j: Image) {
    Distance(i) < Distance(j) || (Distance(i) == Distance(j) && i.id > i.group)
  }

  function Distance(i: Image): nat {
    if i.id < i.group then i.group - i.id else i.id - i.group
  }

  lemma WeightOrder(i: Image, j: Image)
    requires i.group == j.group
    ensures Weight(i) == Weight(j) <==> i == j
    ensures i != j ==> (Weight(i) < Weight(j) <==> Closer(i, j))
  {
  }

  ghost predicate Lightest(rows: seq<Image>, matches: Image -> bool, i: Image) {
    && i in rows && matches(i)
    && forall j :: j in rows && matches(j) && j.group == i.group ==> Weight(i) <= Weight(j)
  }

  lemma {:induction false} AggregateLightest(rows: seq<Image>, matches: Image -> bool)
    ensures forall g :: g in Aggregate(rows, matches) <==> Matched(rows, matches, g)
    ensures forall g :: g in Aggregate(rows, matches) ==>
              Aggregate(rows, matches)[g].group == g && Lightest(rows, matches, Aggregate(rows, matches)[g])
  {
    if rows != [] {
      hide Weight;
      var init, r := rows[..|rows| - 1], rows[|rows| - 1];
      AggregateLightest(init, matches);
      assert rows == init + [r];
      assert forall i :: i in rows <==> i in init || i == r;
    }
  }

  lemma LightestIffClosest(rows: seq<Image>, matches: Image -> bool, i: Image)
    ensures Lightest(rows, matches, i) <==> Closest(rows, matches, i)
  {
    hide Weight, Closer;
    forall j: Image | j.group == i.group
      ensures Weight(i) <= Weight(j) <==> j == i || Closer(i, j)
    {
      WeightOrder(i, j);
    }
  }

  lemma LightestUnique(rows: seq<Image>, matches: Image -> bool, i: Image, j: Image)
    requires Lightest(rows, matches, i) && Lightest(rows, matches, j) && i.group == j.group
    ensures i == j
  {
    WeightOrder(i, j);
  }

  /** The nested query picks exactly the closest matching image of every matched group. */
  lemma PickedIffClosest(rows: seq<Image>, matches: Image -> bool, i: Image)
    requires DistinctIds(rows) && i in rows
    ensures matches(i) && Picked(rows, matches, i.id) <==> Closest(rows, matches, i)
  {
    hide Aggregate, Weight, Closest;
    AggregateLightest(rows, matches);
    LightestIffClosest(rows, matches, i);
    var m := Aggregate(rows, matches);
    if Lightest(rows, matches, i) {
      assert Matched(rows, matches, i.group);
      LightestUnique(rows, matches, m[i.group], i);
    }
    if g :| g in m && m[g].id == i.id {
      SameRow(rows, m[g], i);
    }
  }

  lemma SameRow(rows: seq<Image>, i: Image, j: Image)
    requires DistinctIds(rows) && i in rows && j in rows && i.id == j.id
    ensures i == j
  {
    var a :| 0 <= a < |rows| && rows[a] == i;
    var b :| 0 <= b < |rows| && rows[b] == j;
  }

  // ----- what is shown -----

  /** With no group expanded, the rows shown are the representatives. */
  lemma CollapsedShows(rows: seq<Image>, matches: Image -> bool, expanded: int, i: Image)
    requires DistinctIds(rows) && i in rows
    requires forall j :: j in rows ==> j.id != expanded && j.group != expanded
    ensures Shown(rows, matches, expanded, i) <==> Closest(rows, matches, i)
  {
    PickedIffClosest(rows, matches, i);
  }

  /** Of every matched group exactly one image is shown, of the others none. */
  lemma OnePerGroup(rows: seq<Image>, matches: Image -> bool, expanded: int, g: int)
    requires DistinctIds(rows)
    requires forall j :: j in rows ==> j.id != expanded && j.group != expanded
    ensures Matched(rows, matches, g) <==> exists i :: i in rows && i.group == g && Shown(rows, matches, expanded, i)
    ensures forall i, j | i in rows && j in rows && i.group == j.group == g ::
              Shown(rows, matches, expanded, i) && Shown(rows, matches, expanded, j) ==> i == j
  {
    hide Aggregate, Shown, Closest, Weight;
    AggregateLightest(rows, matches);
    var m := Aggregate(rows, matches);
    forall i | i in rows
      ensures Shown(rows, matches, expanded, i) <==> Lightest(rows, matches, i)
    {
      CollapsedShows(rows, matches, expanded, i);
      LightestIffClosest(rows, matches, i);
    }
    if Matched(rows, matches, g) {
      assert Lightest(rows, matches, m[g]);
    }
    forall i: Image, j: Image | i.group == j.group == g && Lightest(rows, matches, i) && Lightest(rows, matches, j)
      ensures i == j
    {
      LightestUnique(rows, matches, i, j);
    }
  }

  /** With group `g` expanded: its leader even if filtered out, all matches in it, and the
      representative of every other group. */
  lemma ExpandedShows(rows: seq<Image>, matches: Image -> bool, g: int, i: Image)
    requires DistinctIds(rows) && i in rows
    ensures Shown(rows, matches, g, i) <==>
            i.id == g || (if i.group == g then matches(i) else Closest(rows, matches, i))
  {
    PickedIffClosest(rows, matches, i);
  }

  /** A leader that matches is the representative of its group. */
  lemma LeaderRepresents(rows: seq<Image>, matches: Image -> bool, i: Image)
    requires i in rows && matches(i) && i.id == i.group
    ensures Closest(rows, matches, i)
  {
  }

  /** The order in which the table is scanned does not matter. */
  lemma OrderIrrelevant(rows: seq<Image>, other: seq<Image>, matches: Image -> bool, expanded: int, i: Image)
    requires DistinctIds(rows) && DistinctIds(other) && i in rows
    requires forall j :: j in rows <==> j in other
    ensures Shown(rows, matches, expanded, i) <==> Shown(other, matches, expanded, i)
  {
    hide Picked;
    PickedIffClosest(rows, matches, i);
    PickedIffClosest(other, matches, i);
  }
}
