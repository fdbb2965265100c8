/**
 * Candidate selection for one navigation step: which elements qualify for
 * a direction, the stable sort on (distance, cross offset) and the element
 * that wins. Everything here is a pure function of the element list, the
 * focused index and the direction string.
 */
module Ranking {
  import opened Wrappers
  import opened Geometry

  /** A qualifying element: its position in the query result and its sort
      key (squared distance, cross-axis offset). */
  datatype Candidate = Candidate(index: nat, dist2: real, cross: real)

  /** Python's tuple order on the sort keys (distance first, then cross offset). */
  predicate KeyLess(a: Candidate, b: Candidate)
  {
    a.dist2 < b.dist2 || (a.dist2 == b.dist2 && a.cross < b.cross)
  }

  predicate KeyLe(a: Candidate, b: Candidate)
  {
    !KeyLess(b, a)
  }

  /** Ranking on squared distance is ranking on distance: for candidates
      whose true distances are d1 and d2 (their keys hold the squares), the
      model's key order is the source's tuple order on (distance, cross). */
  lemma RankingBySquaredDistance(a: Candidate, b: Candidate, d1: real, d2: real)
    requires 0.0 <= d1 && 0.0 <= d2
    requires d1 * d1 == a.dist2 && d2 * d2 == b.dist2
    ensures KeyLess(a, b) <==> (d1 < d2 || (d1 == d2 && a.cross < b.cross))
  {
    SquaredDistanceOrder(d1, d2);
  }

  /** The candidate element `el` at position i makes, seen from `current`,
      or None when it does not lie beyond the dead zone in the requested
      direction (or the direction string names no direction). */
  function Classify(direction: string, current: Element, el: Element, i: nat): Option<Candidate>
  {
    match ParseDirection(direction)
    case None => None
    case Some(d) =>
      var dx := el.x - current.x;
      var dy := el.y - current.y;
      if Beyond(d, dx, dy) then Some(Candidate(i, SquaredDistance(dx, dy), CrossOffset(d, dx, dy)))
      else None
  }

  /** Element k as a candidate when `cur` is focused; the focused element
      itself is skipped. */
  function CandidateAt(direction: string, elements: seq<Element>, cur: nat, k: nat): Option<Candidate>
    requires cur < |elements| && k < |elements|
  {
    if k == cur then None else Classify(direction, elements[cur], elements[k], k)
  }

  predicate Qualifies(direction: string, elements: seq<Element>, cur: nat, k: nat)
    requires cur < |elements|
  {
    k < |elements| && CandidateAt(direction, elements, cur, k).Some?
  }

  /** The candidate list after the loop has looked at elements[..n], in the
      order it was appended: every entry is the candidate of its element,
      and the positions only grow. */
  function CandidatesUpTo(direction: string, elements: seq<Element>, cur: nat, n: nat): (cs: seq<Candidate>)
    requires cur < |elements| && n <= |elements|
    ensures forall p :: 0 <= p < |cs| ==>
      cs[p].index < n && CandidateAt(direction, elements, cur, cs[p].index) == Some(cs[p])
    ensures forall p, q :: 0 <= p < q < |cs| ==> cs[p].index < cs[q].index
  {
    if n == 0 then []
    else
      var prefix := CandidatesUpTo(direction, elements, cur, n - 1);
      match CandidateAt(direction, elements, cur, n - 1)
      case None => prefix
      case Some(c) => prefix + [c]
  }

  function Candidates(direction: string, elements: seq<Element>, cur: nat): seq<Candidate>
    requires cur < |elements|
  {
    CandidatesUpTo(direction, elements, cur, |elements|)
  }

  /** Every element of elements[..n] that qualifies is in the list. */
  lemma {:induction false} CandidatesComplete(direction: string, elements: seq<Element>, cur: nat, n: nat, k: nat)
    requires cur < |elements| && n <= |elements|
    requires k < n && Qualifies(direction, elements, cur, k)
    ensures exists p :: 0 <= p < |CandidatesUpTo(direction, elements, cur, n)|
                     && CandidatesUpTo(direction, elements, cur, n)[p].index == k
  {
    var cs := CandidatesUpTo(direction, elements, cur, n);
    if k == n - 1 {
      var c := CandidateAt(direction, elements, cur, k).value;
      assert cs == CandidatesUpTo(direction, elements, cur, n - 1) + [c];
      assert cs[|cs| - 1].index == k;
    } else {
      CandidatesComplete(direction, elements, cur, n - 1, k);
      var prefix := CandidatesUpTo(direction, elements, cur, n - 1);
      var p :| 0 <= p < |prefix| && prefix[p].index == k;
      assert cs[..|prefix|] == prefix;
      assert cs[p].index == k;
    }
  }

  // ---------------------------------------------------------------------
  // The stable sort and its first element.
  // ---------------------------------------------------------------------

  /** Inserts c in front of the first entry whose key is not smaller than c's:
      c precedes every entry of equal key, which is what makes SortByKey stable
      when the entries of s come after c in the input. */
  function Insert(c: Candidate, s: seq<Candidate>): (r: seq<Candidate>)
    ensures multiset(r) == multiset(s) + multiset{c}
    ensures |r| == |s| + 1
    ensures r[0] == if s == [] || KeyLe(c, s[0]) then c else s[0]
  {
    if s == [] || KeyLe(c, s[0]) then [c] + s
    else
      assert s == [s[0]] + s[1..];
      [s[0]] + Insert(c, s[1..])
  }

  /** The list sorted by key, entries of equal key kept in input order. */
  function SortByKey(s: seq<Candidate>): (r: seq<Candidate>)
    ensures multiset(r) == multiset(s)
    ensures |r| == |s|
  {
    if s == [] then []
    else
      assert s == [s[0]] + s[1..];
      Insert(s[0], SortByKey(s[1..]))
  }

  predicate SortedByKey(s: seq<Candidate>)
  {
    forall i, j :: 0 <= i < j < |s| ==> KeyLe(s[i], s[j])
  }

  lemma {:induction false} InsertSorted(c: Candidate, s: seq<Candidate>)
    requires SortedByKey(s)
    ensures SortedByKey(Insert(c, s))
  {
    if s == [] || KeyLe(c, s[0]) {
    } else {
      var tail := Insert(c, s[1..]);
      InsertSorted(c, s[1..]);
      forall x | x in tail
        ensures KeyLe(s[0], x)
      {
        assert x in multiset(tail);
        if x != c {
          assert x in multiset(s[1..]);
          var k :| 0 <= k < |s[1..]| && s[1..][k] == x;
          assert s[1 + k] == x;
        }
      }
      var r := Insert(c, s);
      assert r == [s[0]] + tail;
      forall i, j | 0 <= i < j < |r|
        ensures KeyLe(r[i], r[j])
      {
        if i == 0 {
          assert r[j] == tail[j - 1];
          assert r[j] in tail;
        } else {
          assert r[i] == tail[i - 1] && r[j] == tail[j - 1];
        }
      }
    }
  }

  /** The list really is sorted: the candidate the source picks, the first
      of the sorted list, has a key no larger than any later entry. */
  lemma {:induction false} SortByKeySorted(s: seq<Candidate>)
    ensures SortedByKey(SortByKey(s))
  {
    if s != [] {
      SortByKeySorted(s[1..]);
      InsertSorted(s[0], SortByKey(s[1..]));
    }
  }

  /** Reference definition of the winner: the position of the first entry
      whose key is minimal. Every entry's key is at least as large, and
      every entry before it has a strictly larger key. */
  function FirstMin(s: seq<Candidate>): (k: nat)
    requires |s| > 0
    ensures k < |s|
    ensures forall j :: 0 <= j < |s| ==> KeyLe(s[k], s[j])
    ensures forall j :: 0 <= j < k ==> KeyLess(s[k], s[j])
  {
    if |s| == 1 then 0
    else
      var k := FirstMin(s[1..]);
      assert s[1..][k] == s[1 + k];
      if KeyLe(s[0], s[1 + k]) then 0 else 1 + k
  }

  /** A stable sort puts the first minimal entry first, so Python's
      `candidates.sort(...)` followed by `candidates[0]` picks FirstMin. */
  lemma {:induction false} SortByKeyHead(s: seq<Candidate>)
    requires |s| > 0
    ensures SortByKey(s)[0] == s[FirstMin(s)]
  {
    if |s| > 1 {
      SortByKeyHead(s[1..]);
      assert s[1..][FirstMin(s[1..])] == s[1 + FirstMin(s[1..])];
    }
  }

  // ---------------------------------------------------------------------
  // The element a navigation step moves to.
  // ---------------------------------------------------------------------

  /** The index the source hands to focus_element after sorting, or None
      when no element qualifies. */
  function Target(direction: string, elements: seq<Element>, cur: nat): Option<nat>
    requires cur < |elements|
  {
    var cs := Candidates(direction, elements, cur);
    if cs == [] then None else Some(SortByKey(cs)[0].index)
  }

  /** The key element k is ranked by; only meaningful when k qualifies. */
  function KeyAt(direction: string, elements: seq<Element>, cur: nat, k: nat): Candidate
    requires cur < |elements| && Qualifies(direction, elements, cur, k)
  {
    CandidateAt(direction, elements, cur, k).value
  }

  /** Qualification spelled out: not the focused element, and strictly
      beyond the 30-pixel dead zone on the movement axis. */
  lemma QualifiesIff(direction: string, elements: seq<Element>, cur: nat, k: nat)
    requires cur < |elements| && k < |elements|
    ensures Qualifies(direction, elements, cur, k) <==>
      k != cur &&
      var dx := elements[k].x - elements[cur].x;
      var dy := elements[k].y - elements[cur].y;
      (direction == "up" && dy < -30.0) || (direction == "down" && dy > 30.0) ||
      (direction == "left" && dx < -30.0) || (direction == "right" && dx > 30.0)
  {
  }

  /** The key of a qualifying element: squared distance, and |dx| for a
      vertical move or |dy| for a horizontal one. */
  lemma KeyAtIs(direction: string, elements: seq<Element>, cur: nat, k: nat)
    requires cur < |elements| && Qualifies(direction, elements, cur, k)
    ensures var dx := elements[k].x - elements[cur].x;
            var dy := elements[k].y - elements[cur].y;
            var c := KeyAt(direction, elements, cur, k);
            c.index == k && c.dist2 == dx * dx + dy * dy &&
            c.cross == (if direction == "up" || direction == "down" then Abs(dx) else Abs(dy))
  {
  }

  /** The winner qualifies: it is in range, it is not the focused element,
      and it lies beyond the dead zone for the direction. */
  lemma TargetQualifies(direction: string, elements: seq<Element>, cur: nat)
    requires cur < |elements| && Target(direction, elements, cur).Some?
    ensures var j := Target(direction, elements, cur).value;
            Qualifies(direction, elements, cur, j) && j != cur
  {
    var cs := Candidates(direction, elements, cur);
    SortByKeyHead(cs);
  }

  /** The winner's (distance, cross offset) pair is lexicographically
      minimal among all qualifying elements. */
  lemma TargetMinimal(direction: string, elements: seq<Element>, cur: nat, k: nat)
    requires cur < |elements| && Target(direction, elements, cur).Some?
    requires Qualifies(direction, elements, cur, k)
    ensures var j := Target(direction, elements, cur).value;
            Qualifies(direction, elements, cur, j) &&
            KeyLe(KeyAt(direction, elements, cur, j), KeyAt(direction, elements, cur, k))
  {
    var cs := Candidates(direction, elements, cur);
    SortByKeyHead(cs);
    CandidatesComplete(direction, elements, cur, |elements|, k);
    var p :| 0 <= p < |cs| && cs[p].index == k;
    assert cs[FirstMin(cs)] == SortByKey(cs)[0];
    assert KeyLe(cs[FirstMin(cs)], cs[p]);
  }

  /** Stable tie-break: every qualifying element earlier in document order
      than the winner has a strictly larger key. */
  lemma TargetFirstOfEqual(direction: string, elements: seq<Element>, cur: nat, k: nat)
    requires cur < |elements| && Target(direction, elements, cur).Some?
    requires Qualifies(direction, elements, cur, k) && k < Target(direction, elements, cur).value
    ensures var j := Target(direction, elements, cur).value;
            Qualifies(direction, elements, cur, j) &&
            KeyLess(KeyAt(direction, elements, cur, j), KeyAt(direction, elements, cur, k))
  {
    var cs := Candidates(direction, elements, cur);
    SortByKeyHead(cs);
    CandidatesComplete(direction, elements, cur, |elements|, k);
    var p :| 0 <= p < |cs| && cs[p].index == k;
    var h := FirstMin(cs);
    assert cs[h] == SortByKey(cs)[0];
    assert p < h;
  }

  /** No winner exactly when nothing qualifies. */
  lemma TargetNoneIff(direction: string, elements: seq<Element>, cur: nat)
    requires cur < |elements|
    ensures Target(direction, elements, cur).None? <==>
            forall k :: 0 <= k < |elements| ==> !Qualifies(direction, elements, cur, k)
  {
    var cs := Candidates(direction, elements, cur);
    if cs != [] {
      assert Qualifies(direction, elements, cur, cs[0].index);
    }
    forall k | 0 <= k < |elements| && Qualifies(direction, elements, cur, k)
      ensures cs != []
    {
      CandidatesComplete(direction, elements, cur, |elements|, k);
    }
  }

  /** A direction string other than up, down, left and right never moves. */
  lemma UnknownDirectionNoTarget(direction: string, elements: seq<Element>, cur: nat)
    requires cur < |elements|
    requires direction != "up" && direction != "down" && direction != "left" && direction != "right"
    ensures Target(direction, elements, cur) == None
  {
  }

  /** The three properties above pin the winner down: any qualifying j
      that is key-minimal and strictly better than every earlier
      qualifying element is the winner. */
  lemma TargetUnique(direction: string, elements: seq<Element>, cur: nat, j: nat)
    requires cur < |elements| && Qualifies(direction, elements, cur, j)
    requires forall k: nat :: Qualifies(direction, elements, cur, k) ==>
               KeyLe(KeyAt(direction, elements, cur, j), KeyAt(direction, elements, cur, k))
    requires forall k: nat :: Qualifies(direction, elements, cur, k) && k < j ==>
               KeyLess(KeyAt(direction, elements, cur, j), KeyAt(direction, elements, cur, k))
    ensures Target(direction, elements, cur) == Some(j)
  {
    TargetNoneIff(direction, elements, cur);
    var t := Target(direction, elements, cur).value;
    TargetQualifies(direction, elements, cur);
    if t < j {
      TargetMinimal(direction, elements, cur, j);
    } else if j < t {
      TargetFirstOfEqual(direction, elements, cur, j);
    }
  }

  /** Elements [(100,100), (100,300), (300,100)] with element 0 focused:
      moving down picks element 1 (dy = 200); element 2 (dy = 0) does not
      qualify. */
  lemma DownScenario()
    ensures Target("down", [Element(100.0, 100.0, "A"), Element(100.0, 300.0, "B"),
                            Element(300.0, 100.0, "C")], 0) == Some(1)
  {
    var els := [Element(100.0, 100.0, "A"), Element(100.0, 300.0, "B"), Element(300.0, 100.0, "C")];
    assert CandidatesUpTo("down", els, 0, 1) == [];
    assert CandidateAt("down", els, 0, 1) == Some(Candidate(1, 40000.0, 0.0));
    assert CandidatesUpTo("down", els, 0, 2) == [Candidate(1, 40000.0, 0.0)];
    assert CandidateAt("down", els, 0, 2) == None;
    assert Candidates("down", els, 0) == [Candidate(1, 40000.0, 0.0)];
  }
}
