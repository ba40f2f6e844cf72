/** The department hierarchy: each department names its parent, or none. */
module DepartmentForest {
  import opened PythonText

  datatype Department = Department(id: string, name: string, description: string, leadUserId: string, parentId: string)

  /** `{dept.id: dept.parent_id ...}` over a list of departments. */
  function Parents(ds: seq<Department>): map<string, string> {
    if ds == [] then map[]
    else Parents(ds[..|ds| - 1])[ds[|ds| - 1].id := ds[|ds| - 1].parentId]
  }

  /** The n-th ancestor of `id`; "" stands above every root. */
  function Up(parents: map<string, string>, id: string, n: nat): string {
    if n == 0 then id
    else
      var below := Up(parents, id, n - 1);
      if below in parents then parents[below] else ""
  }

  ghost predicate EndsAtRoot(parents: map<string, string>, id: string) {
    exists n: nat :: Up(parents, id, n) == ""
  }

  ghost predicate UniqueIds(ds: seq<Department>) {
    forall i, j | 0 <= i < j < |ds| :: ds[i].id != ds[j].id
  }

  predicate NonBlank(id: string) {
    Strip(id) != ""
  }

  /** Every id is used once and is not blank, every parent is there, and every chain of parents ends. */
  ghost predicate Forest(ds: seq<Department>) {
    && UniqueIds(ds)
    && (forall d | d in ds :: NonBlank(d.id))
    && (forall d | d in ds :: d.parentId == "" || d.parentId in Parents(ds))
    && (forall d | d in ds :: EndsAtRoot(Parents(ds), d.id))
  }

  function Without(ds: seq<Department>, id: string): seq<Department> {
    if ds == [] then []
    else Without(ds[..|ds| - 1], id) + if ds[|ds| - 1].id != id then [ds[|ds| - 1]] else []
  }

  function Upserted(ds: seq<Department>, d: Department): seq<Department> {
    Without(ds, d.id) + [d]
  }

  /** The list after a deletion: the children of the deleted department become roots. */
  function Deleted(ds: seq<Department>, id: string): seq<Department> {
    if ds == [] then []
    else
      var last := ds[|ds| - 1];
      Deleted(ds[..|ds| - 1], id) +
      if last.id == id then [] else if last.parentId == id then [last.(parentId := "")] else [last]
  }

  // ----- Lists and their parent maps -----

  lemma {:induction false} ParentsKeys(ds: seq<Department>)
    ensures forall id :: id in Parents(ds) <==> exists d :: d in ds && d.id == id
    ensures UniqueIds(ds) ==> forall d | d in ds :: d.id in Parents(ds) && Parents(ds)[d.id] == d.parentId
    decreases |ds|
  {
    if ds != [] {
      var front, last := ds[..|ds| - 1], ds[|ds| - 1];
      ParentsKeys(front);
      assert ds == front + [last];
      assert UniqueIds(ds) ==> UniqueIds(front);
      if UniqueIds(ds) {
        forall d | d in ds ensures d.id in Parents(ds) && Parents(ds)[d.id] == d.parentId {
          assert d in front ==> d.id != last.id;
        }
      }
    }
  }

  lemma UniqueSnoc(front: seq<Department>, last: Department)
    ensures UniqueIds(front + [last]) <==> UniqueIds(front) && forall d | d in front :: d.id != last.id
  {
    var ds := front + [last];
    if UniqueIds(ds) {
      forall d | d in front ensures d.id != last.id {
        var i :| 0 <= i < |front| && front[i] == d;
        assert ds[i].id != ds[|front|].id;
      }
      forall i, j | 0 <= i < j < |front| ensures front[i].id != front[j].id { assert ds[i].id != ds[j].id; }
    }
  }

  lemma {:induction false} WithoutMembers(ds: seq<Department>, id: string)
    ensures forall d :: d in Without(ds, id) <==> d in ds && d.id != id
    decreases |ds|
  {
    if ds != [] {
      WithoutMembers(ds[..|ds| - 1], id);
      assert ds == ds[..|ds| - 1] + [ds[|ds| - 1]];
    }
  }

  lemma {:induction false} WithoutUnique(ds: seq<Department>, id: string)
    requires UniqueIds(ds)
    ensures UniqueIds(Without(ds, id))
    decreases |ds|
  {
    if ds != [] {
      var front, last := ds[..|ds| - 1], ds[|ds| - 1];
      assert ds == front + [last];
      UniqueSnoc(front, last);
      WithoutUnique(front, id);
      WithoutMembers(front, id);
      if last.id != id {
        UniqueSnoc(Without(front, id), last);
      } else {
        assert Without(front, id) + [] == Without(front, id);
      }
    }
  }

  lemma {:induction false} WithoutParents(ds: seq<Department>, id: string)
    ensures Parents(Without(ds, id)) == Parents(ds) - {id}
    decreases |ds|
  {
    if ds != [] {
      var front, last := ds[..|ds| - 1], ds[|ds| - 1];
      WithoutParents(front, id);
      var kept := Without(front, id);
      if last.id != id {
        assert (kept + [last])[..|kept|] == kept;
        assert Parents(front)[last.id := last.parentId] - {id} == (Parents(front) - {id})[last.id := last.parentId];
      } else {
        assert kept + [] == kept;
        assert Parents(front)[id := last.parentId] - {id} == Parents(front) - {id};
      }
    }
  }

  /** The department that a department becomes when `id` is deleted. */
  function Reparented(e: Department, id: string): Department {
    if e.parentId == id then e.(parentId := "") else e
  }

  lemma {:induction false} DeletedMembers(ds: seq<Department>, id: string)
    ensures forall d | d in Deleted(ds, id) :: exists e :: e in ds && e.id != id && d == Reparented(e, id)
    ensures forall e | e in ds && e.id != id :: Reparented(e, id) in Deleted(ds, id)
    decreases |ds|
  {
    if ds != [] {
      var front, last := ds[..|ds| - 1], ds[|ds| - 1];
      DeletedMembers(front, id);
      assert ds == front + [last];
      assert Deleted(ds, id) == Deleted(front, id) + if last.id == id then [] else [Reparented(last, id)];
      forall d | d in Deleted(ds, id) ensures exists e :: e in ds && e.id != id && d == Reparented(e, id) {
        if d in Deleted(front, id) {
          var e :| e in front && e.id != id && d == Reparented(e, id);
          assert e in ds;
        } else {
          assert last in ds;
        }
      }
    }
  }

  lemma {:induction false} DeletedUnique(ds: seq<Department>, id: string)
    requires UniqueIds(ds)
    ensures UniqueIds(Deleted(ds, id))
    decreases |ds|
  {
    if ds != [] {
      var front, last := ds[..|ds| - 1], ds[|ds| - 1];
      assert ds == front + [last];
      UniqueSnoc(front, last);
      DeletedUnique(front, id);
      DeletedMembers(front, id);
      var kept := Deleted(front, id);
      if last.id != id { UniqueSnoc(kept, Reparented(last, id)); } else { assert kept + [] == kept; }
    }
  }

  // ----- Chains -----

  lemma {:induction false} UpStaysAboveRoot(p: map<string, string>, id: string, n: nat, m: nat)
    requires "" !in p && n <= m && Up(p, id, n) == ""
    ensures Up(p, id, m) == ""
    decreases m
  {
    if n < m { UpStaysAboveRoot(p, id, n, m - 1); }
  }

  lemma {:induction false} UpAdds(p: map<string, string>, id: string, n: nat, m: nat)
    ensures Up(p, id, n + m) == Up(p, Up(p, id, n), m)
    decreases m
  {
    if m > 0 { UpAdds(p, id, n, m - 1); }
  }

  /** A chain that meets a node twice goes round for ever. */
  lemma {:induction false} RepeatedNeverEnds(p: map<string, string>, id: string, j: nat, k: nat, n: nat)
    requires "" !in p && j < k && Up(p, id, j) == Up(p, id, k) != ""
    ensures Up(p, id, n) != ""
    decreases n
  {
    if n <= k {
      if Up(p, id, n) == "" { UpStaysAboveRoot(p, id, n, k); }
    } else {
      UpAdds(p, id, k, n - k);
      UpAdds(p, id, j, n - k);
      RepeatedNeverEnds(p, id, j, k, j + (n - k));
    }
  }

  /** As long as a chain avoids `id`, giving `id` another parent does not change it. */
  lemma {:induction false} UpAvoids(p: map<string, string>, q: map<string, string>, id: string, from: string, n: nat)
    requires p - {id} == q - {id}
    requires forall m: nat | m < n :: Up(p, from, m) != id
    ensures Up(q, from, n) == Up(p, from, n)
    decreases n
  {
    if n > 0 {
      UpAvoids(p, q, id, from, n - 1);
      var below := Up(p, from, n - 1);
      assert below in p <==> below in p - {id};
      assert below in q <==> below in q - {id};
      assert below in p ==> p[below] == (p - {id})[below] == (q - {id})[below];
    }
  }

  /** Where a chain first meets `id`, if it does within n steps. */
  lemma {:induction false} FirstMeeting(p: map<string, string>, from: string, id: string, n: nat) returns (m: nat)
    ensures m <= n && forall k: nat | k < m :: Up(p, from, k) != id
    ensures m == n || Up(p, from, m) == id
    decreases n
  {
    if n == 0 { m := 0; } else {
      m := FirstMeeting(p, from, id, n - 1);
      if m == n - 1 && Up(p, from, m) != id { m := n; }
    }
  }

  /** If `id` reaches a root along `q`, so does everything that reached one along `p`. */
  lemma StillEnds(p: map<string, string>, q: map<string, string>, id: string, from: string)
    requires "" !in q && p - {id} == q - {id} && EndsAtRoot(p, from) && EndsAtRoot(q, id)
    ensures EndsAtRoot(q, from)
  {
    var n: nat :| Up(p, from, n) == "";
    var m := FirstMeeting(p, from, id, n);
    UpAvoids(p, q, id, from, m);
    if m < n {
      var r: nat :| Up(q, id, r) == "";
      UpAdds(q, from, m, r);
    }
  }

  lemma BlankIsNotAnId(ds: seq<Department>)
    requires forall d | d in ds :: NonBlank(d.id)
    ensures "" !in Parents(ds)
  {
    ParentsKeys(ds);
  }

  lemma {:induction false} UpsertedParents(ds: seq<Department>, d: Department)
    ensures Parents(Upserted(ds, d)) == (Parents(ds) - {d.id})[d.id := d.parentId]
    ensures UniqueIds(ds) ==> UniqueIds(Upserted(ds, d))
    ensures forall e :: e in Upserted(ds, d) <==> e == d || (e in ds && e.id != d.id)
  {
    var others := Without(ds, d.id);
    WithoutMembers(ds, d.id);
    WithoutParents(ds, d.id);
    assert (others + [d])[..|others|] == others;
    if UniqueIds(ds) { WithoutUnique(ds, d.id); }
    UniqueSnoc(others, d);
  }

  /** In a forest, writing a department with a present parent keeps the forest exactly when its
      own new chain of parents ends. */
  lemma UpsertKeepsForest(ds: seq<Department>, d: Department)
    requires Forest(ds) && NonBlank(d.id)
    ensures var after := Upserted(ds, d);
            Forest(after) <==> (d.parentId == "" || d.parentId in Parents(after)) && EndsAtRoot(Parents(after), d.id)
  {
    hide Parents, Upserted, NonBlank, Up;
    var after := Upserted(ds, d);
    UpsertedParents(ds, d);
    ParentsKeys(ds);
    assert d in after;
    forall e | e in after ensures NonBlank(e.id) {}
    BlankIsNotAnId(after);
    if EndsAtRoot(Parents(after), d.id) {
      assert Parents(ds) - {d.id} == Parents(after) - {d.id};
      forall e | e in after ensures EndsAtRoot(Parents(after), e.id) {
        if e != d { StillEnds(Parents(ds), Parents(after), d.id, e.id); }
      }
    }
  }

  /** After a deletion every chain is the old one, or ends where it used to reach `id`. */
  lemma {:induction false} UpAfterDelete(p: map<string, string>, q: map<string, string>, id: string, from: string,
                                         n: nat)
    requires from != id && "" !in p
    requires forall e :: e in q <==> e in p && e != id
    requires forall e | e in q :: q[e] == if p[e] == id then "" else p[e]
    ensures Up(q, from, n) == "" || (Up(q, from, n) == Up(p, from, n) && Up(p, from, n) != id)
    decreases n
  {
    if n > 0 { UpAfterDelete(p, q, id, from, n - 1); }
  }

  lemma OwnerOf(ds: seq<Department>, id: string) returns (d: Department)
    requires UniqueIds(ds) && id in Parents(ds)
    ensures d in ds && d.id == id && Parents(ds)[id] == d.parentId
  {
    ParentsKeys(ds);
    d :| d in ds && d.id == id;
  }

  lemma OwnsId(ds: seq<Department>, d: Department)
    requires UniqueIds(ds) && d in ds
    ensures d.id in Parents(ds) && Parents(ds)[d.id] == d.parentId
  {
    ParentsKeys(ds);
  }

  lemma DeletedFrom(ds: seq<Department>, id: string, d: Department) returns (e: Department)
    requires d in Deleted(ds, id)
    ensures e in ds && e.id != id && d == Reparented(e, id)
  {
    DeletedMembers(ds, id);
    e :| e in ds && e.id != id && d == Reparented(e, id);
  }

  lemma DeletedParent(ds: seq<Department>, id: string, e: string)
    requires UniqueIds(ds)
    ensures e in Parents(Deleted(ds, id)) <==> e in Parents(ds) && e != id
    ensures e in Parents(Deleted(ds, id)) ==>
      Parents(Deleted(ds, id))[e] == if Parents(ds)[e] == id then "" else Parents(ds)[e]
  {
    hide Parents, Deleted, UniqueIds;
    var after := Deleted(ds, id);
    DeletedUnique(ds, id);
    if e in Parents(ds) && e != id {
      var d := OwnerOf(ds, e);
      DeletedMembers(ds, id);
      OwnsId(after, Reparented(d, id));
    } else if e in Parents(after) {
      var d := OwnerOf(after, e);
      var was := DeletedFrom(ds, id, d);
      OwnsId(ds, was);
    }
  }

  lemma DeletedParents(ds: seq<Department>, id: string)
    requires UniqueIds(ds)
    ensures forall e :: e in Parents(Deleted(ds, id)) <==> e in Parents(ds) && e != id
    ensures forall e | e in Parents(Deleted(ds, id)) ::
      Parents(Deleted(ds, id))[e] == if Parents(ds)[e] == id then "" else Parents(ds)[e]
  {
    hide Parents, Deleted, UniqueIds;
    forall e ensures e in Parents(Deleted(ds, id)) <==> e in Parents(ds) && e != id { DeletedParent(ds, id, e); }
    forall e | e in Parents(Deleted(ds, id))
      ensures Parents(Deleted(ds, id))[e] == if Parents(ds)[e] == id then ""
          else Parents(ds)[e] { DeletedParent(ds, id, e); }
  }

  /** Deleting a department keeps the forest. */
  lemma {:induction false} DeleteKeepsForest(ds: seq<Department>, id: string)
    requires Forest(ds)
    ensures Forest(Deleted(ds, id))
  {
    hide Parents, Deleted, NonBlank, Up;
    var after := Deleted(ds, id);
    DeletedMembers(ds, id);
    DeletedUnique(ds, id);
    DeletedParents(ds, id);
    BlankIsNotAnId(ds);
    forall d | d in after ensures NonBlank(d.id) && (d.parentId == "" || d.parentId in Parents(after))
      && EndsAtRoot(Parents(after), d.id) {
      var was :| was in ds && was.id != id && d == Reparented(was, id);
      var n: nat :| Up(Parents(ds), was.id, n) == "";
      UpAfterDelete(Parents(ds), Parents(after), id, was.id, n);
    }
  }

  lemma EmptyIsForest()
    ensures Forest([])
  {
  }

  // ----- The check in upsert_department -----

  /** The walk up the chain of parents: it terminates, and reports a cycle exactly when the
      chain of the written department would not end. */
  method ChainEnds(others: map<string, Department>, d: Department) returns (ends: bool)
    requires forall id | id in others :: others[id].id == id
    requires "" !in others && d.id !in others && d.id != ""
    ensures ends <==> EndsAtRoot(ParentOf(others)[d.id := d.parentId], d.id)
  {
    ghost var p := ParentOf(others)[d.id := d.parentId];
    var visited := {d.id};
    var cursor := d.parentId;
    ghost var k := 1;
    assert Up(p, d.id, 0) == d.id && Up(p, d.id, 1) == d.parentId;
    while cursor != ""
      invariant k >= 1 && cursor == Up(p, d.id, k)
      invariant visited == set j: nat | j < k :: Up(p, d.id, j)
      invariant "" !in visited
      decreases others.Keys - visited, if cursor == "" then 0 else 1
    {
      if cursor in visited {
        ghost var j: nat :| j < k && Up(p, d.id, j) == cursor;
        forall n: nat ensures Up(p, d.id, n) != "" { RepeatedNeverEnds(p, d.id, j, k, n); }
        return false;
      }
      visited := visited + {cursor};
      cursor := if cursor in others then others[cursor].parentId else "";
      k := k + 1;
    }
    return true;
  }

  function ParentOf(others: map<string, Department>): map<string, string> {
    map id | id in others :: others[id].parentId
  }
}
