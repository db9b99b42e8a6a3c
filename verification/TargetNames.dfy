/** Targets and the names they own: the target_names table equals the relation its targets
    define, through creation, update and retirement, with rollback of what a transaction had
    already changed when it meets a conflict. */
module TargetNames {
  import opened Basics

  type Id = string

  datatype Row = Row(fqdn: string, additional: seq<string>, enabled: bool, retired: bool, revision: int)
  datatype Error = NotFound | Conflict | Retired | StaleRevision | StillEnabled | RunActive
  datatype Reply = Ok | Err(error: Error)

  function NamesOf(t: Row): seq<string> {
    [t.fqdn] + t.additional
  }

  /** The target is in service and the name is one of its own. */
  predicate Has(targets: map<Id, Row>, id: Id, name: string) {
    id in targets && !targets[id].retired && name in NamesOf(targets[id])
  }

  /** Each name row belongs to the target that has the name, and every such name has a row. */
  ghost predicate Agrees(targets: map<Id, Row>, names: map<string, Id>) {
    && (forall n | n in names :: Has(targets, names[n], n))
    && (forall id, n | Has(targets, id, n) :: n in names && names[n] == id)
  }

  /** So no name has two owners, and the rows say nothing but what the targets say. */
  lemma AgreementIsOwnership(targets: map<Id, Row>, names: map<string, Id>, other: map<string, Id>, n: string, x: Id, y: Id)
    requires Agrees(targets, names)
    ensures Has(targets, x, n) && Has(targets, y, n) ==> x == y
    ensures n in names <==> exists id :: Has(targets, id, n)
    ensures Agrees(targets, other) ==> other == names
  {}

  /** How a row may change: its FQDN never, a retired row not at all, and any change raises
      the revision by one. */
  predicate RowForward(before: Row, after: Row) {
    && after.fqdn == before.fqdn
    && (before.retired ==> after == before)
    && (after != before ==> after.revision == before.revision + 1)
  }

  ghost predicate Forward(before: map<Id, Row>, after: map<Id, Row>) {
    forall id | id in before :: id in after && RowForward(before[id], after[id])
  }

  /** An unowned name is wanted once. */
  predicate UnownedOnce(names: map<string, Id>, wanted: seq<string>) {
    forall i, j | 0 <= i < j < |wanted| && wanted[i] == wanted[j] :: wanted[i] in names
  }

  /** Names nobody else owns, none of the unowned ones twice. */
  predicate Claimable(names: map<string, Id>, id: Id, wanted: seq<string>) {
    (forall n | n in wanted && n in names :: names[n] == id) && UnownedOnce(names, wanted)
  }

  function Claimed(names: map<string, Id>, id: Id, wanted: seq<string>): map<string, Id> {
    names + (map n | n in wanted :: id)
  }

  /** What is left of the names when a target drops all of its own but one. */
  function Without(names: map<string, Id>, id: Id, keep: seq<string>): map<string, Id> {
    map n | n in names && (names[n] != id || n in keep) :: names[n]
  }

  function Free(names: map<string, Id>, wanted: seq<string>): seq<string> {
    if wanted == [] then []
    else
      var last := wanted[|wanted| - 1];
      Free(names, wanted[..|wanted| - 1]) + (if last in names then [] else [last])
  }

  lemma DistinctAppend(s: seq<string>, x: string)
    ensures Distinct(s + [x]) <==> Distinct(s) && x !in s
  {
    var t := s + [x];
    assert forall i | 0 <= i < |s| :: t[i] == s[i];
    assert t[|s|] == x;
  }

  lemma UnownedOnceAppend(names: map<string, Id>, s: seq<string>, x: string)
    ensures UnownedOnce(names, s + [x]) <==> UnownedOnce(names, s) && (x in names || x !in s)
  {
    var t := s + [x];
    assert forall i | 0 <= i < |s| :: t[i] == s[i];
    assert t[|s|] == x;
  }

  lemma {:induction false} FreeIsUnowned(names: map<string, Id>, wanted: seq<string>)
    ensures forall n :: n in Free(names, wanted) <==> n in wanted && n !in names
    ensures Distinct(Free(names, wanted)) <==> UnownedOnce(names, wanted)
  {
    if wanted != [] {
      var n := |wanted| - 1;
      FreeIsUnowned(names, wanted[..n]);
      assert wanted == wanted[..n] + [wanted[n]];
      UnownedOnceAppend(names, wanted[..n], wanted[n]);
      DistinctAppend(Free(names, wanted[..n]), wanted[n]);
      assert Free(names, wanted[..n]) + [] == Free(names, wanted[..n]);
    }
  }

  lemma OneMoreName(names: map<string, Id>, id: Id, free: seq<string>, i: nat)
    requires i < |free| && free[i] !in names
    ensures free[i] in Claimed(names, id, free[..i]) <==> free[i] in free[..i]
    ensures Claimed(names, id, free[..i + 1]) == Claimed(names, id, free[..i])[free[i] := id]
    ensures Distinct(free[..i + 1]) <==> Distinct(free[..i]) && free[i] !in free[..i]
    ensures Distinct(free) ==> free[i] !in free[..i]
  {
    assert free[..i + 1] == free[..i] + [free[i]];
    DistinctAppend(free[..i], free[i]);
  }

  lemma ClaimingTheFreeIsEnough(names: map<string, Id>, id: Id, wanted: seq<string>)
    requires forall n | n in wanted && n in names :: names[n] == id
    ensures Claimed(names, id, Free(names, wanted)) == Claimed(names, id, wanted)
  {
    FreeIsUnowned(names, wanted);
  }

  lemma CreationAgrees(targets: map<Id, Row>, names: map<string, Id>, id: Id, t: Row)
    requires Agrees(targets, names) && id !in targets && !t.retired && Claimable(names, id, NamesOf(t))
    ensures Agrees(targets[id := t], Claimed(names, id, NamesOf(t)))
  {
    var now, after := Claimed(names, id, NamesOf(t)), targets[id := t];
    forall n | n in names ensures n !in NamesOf(t) {
      assert Has(targets, names[n], n);
    }
    forall n | n in now ensures Has(after, now[n], n) {
      if n !in NamesOf(t) {
        assert Has(targets, names[n], n);
      }
    }
    forall x, n | Has(after, x, n) ensures n in now && now[n] == x {
      if x != id {
        assert Has(targets, x, n);
      }
    }
  }

  lemma UpdateAgrees(targets: map<Id, Row>, names: map<string, Id>, id: Id, t: Row)
    requires Agrees(targets, names) && id in targets && !targets[id].retired && !t.retired && t.fqdn == targets[id].fqdn
    requires Claimable(Without(names, id, [t.fqdn]), id, NamesOf(t))
    ensures Agrees(targets[id := t], Claimed(Without(names, id, [t.fqdn]), id, NamesOf(t)))
  {
    var left := Without(names, id, [t.fqdn]);
    var now := Claimed(left, id, NamesOf(t));
    var after := targets[id := t];
    forall n | n in now ensures Has(after, now[n], n) {
      if n !in NamesOf(t) {
        assert Has(targets, names[n], n);
      }
    }
    forall x, n | Has(after, x, n) ensures n in now && now[n] == x {
      if x != id {
        assert Has(targets, x, n);
        assert n in left;
      }
    }
  }

  lemma RetirementAgrees(targets: map<Id, Row>, names: map<string, Id>, id: Id, t: Row)
    requires Agrees(targets, names) && id in targets && t.retired
    ensures Agrees(targets[id := t], Without(names, id, []))
  {
    var now, after := Without(names, id, []), targets[id := t];
    forall n | n in now ensures Has(after, now[n], n) {
      assert Has(targets, names[n], n);
    }
    forall x, n | Has(after, x, n) ensures n in now && now[n] == x {
      assert Has(targets, x, n);
    }
  }

  class Table {
    var targets: map<Id, Row>
    var names: map<string, Id>

    ghost predicate Valid()
      reads this
    {
      Agrees(targets, names)
    }

    constructor ()
      ensures Valid() && targets == map[] && names == map[]
    {
      targets, names := map[], map[];
    }

    method Unowned(id: Id, wanted: seq<string>) returns (free: seq<string>, taken: bool)
      ensures free == Free(names, wanted)
      ensures taken <==> exists n :: n in wanted && n in names && names[n] != id
    {
      free, taken := [], false;
      for i := 0 to |wanted|
        invariant free == Free(names, wanted[..i])
        invariant taken <==> exists n :: n in wanted[..i] && n in names && names[n] != id
      {
        assert wanted[..i + 1] == wanted[..i] + [wanted[i]];
        if wanted[i] !in names {
          free := free + [wanted[i]];
        } else if names[wanted[i]] != id {
          taken := true;
        }
      }
      assert wanted[..|wanted|] == wanted;
    }

    /** Inserts the names one by one; the unique index refuses one that is already there. */
    method InsertAll(id: Id, free: seq<string>) returns (ok: bool)
      requires forall n | n in free :: n !in names
      modifies this`names
      ensures ok <==> Distinct(free)
      ensures ok ==> names == Claimed(old(names), id, free)
    {
      ghost var before := names;
      assert free[..0] == [];
      for i := 0 to |free|
        invariant names == Claimed(before, id, free[..i]) && Distinct(free[..i])
      {
        OneMoreName(before, id, free, i);
        if free[i] in names {
          return false;
        }
        names := names[free[i] := id];
      }
      assert free[..|free|] == free;
      ok := true;
    }

    /** Adds the names that have no owner; a failure leaves the rollback to the transaction. */
    method ClaimNames(id: Id, wanted: seq<string>) returns (ok: bool)
      modifies this`names
      ensures ok <==> Claimable(old(names), id, wanted)
      ensures ok ==> names == Claimed(old(names), id, wanted)
    {
      ghost var before := names;
      var free, taken := Unowned(id, wanted);
      FreeIsUnowned(names, wanted);
      if taken {
        return false;
      }
      ok := InsertAll(id, free);
      ClaimingTheFreeIsEnough(before, id, wanted);
    }

    method CreateTarget(id: Id, fqdn: string, additional: seq<string>, enabled: bool, policyExists: bool) returns (reply: Reply)
      requires Valid()
      modifies this
      ensures Valid() && Forward(old(targets), targets)
      ensures reply.Ok? <==>
                && id !in old(targets) && policyExists
                && Claimable(old(names), id, [fqdn] + additional)
      ensures reply.Err? ==> reply.error == Conflict || (reply.error == NotFound && !policyExists)
      ensures reply.Ok? ==> targets == old(targets)[id := Row(fqdn, additional, enabled, false, 1)]
      ensures reply.Err? ==> targets == old(targets) && names == old(names)
    {
      var savedTargets, savedNames := targets, names;
      if id in targets || exists x :: x in targets && !targets[x].retired && targets[x].fqdn == fqdn {
        assert fqdn in [fqdn] + additional;
        if id !in targets {
          var x :| x in targets && !targets[x].retired && targets[x].fqdn == fqdn;
          assert Has(targets, x, fqdn);
        }
        return Err(Conflict);
      }
      if !policyExists {
        return Err(NotFound);
      }
      var t := Row(fqdn, additional, enabled, false, 1);
      targets := targets[id := t];
      var ok := ClaimNames(id, NamesOf(t));
      if !ok {
        targets, names := savedTargets, savedNames;
        return Err(Conflict);
      }
      CreationAgrees(savedTargets, savedNames, id, t);
      reply := Ok;
    }

    /** The row's FQDN is kept; its other names are dropped and the wanted ones claimed. */
    method UpdateTarget(id: Id, expected: int, additional: seq<string>, enabled: bool, policyExists: bool) returns (reply: Reply)
      requires Valid()
      modifies this
      ensures Valid() && Forward(old(targets), targets)
      ensures reply.Ok? <==>
                && id in old(targets) && !old(targets)[id].retired && old(targets)[id].revision == expected && policyExists
                && Claimable(Without(old(names), id, [old(targets)[id].fqdn]), id, [old(targets)[id].fqdn] + additional)
      ensures reply.Ok? ==> targets == old(targets)[id := Row(old(targets)[id].fqdn, additional, enabled, false, expected + 1)]
      ensures reply.Err? ==> targets == old(targets) && names == old(names)
      ensures reply == Ok || reply == Err(
                if id !in old(targets) then NotFound
                else if old(targets)[id].retired then Retired
                else if old(targets)[id].revision != expected then StaleRevision
                else if !policyExists then NotFound else Conflict)
    {
      if id !in targets {
        return Err(NotFound);
      }
      if targets[id].retired {
        return Err(Retired);
      }
      if targets[id].revision != expected {
        return Err(StaleRevision);
      }
      if !policyExists {
        return Err(NotFound);
      }
      var savedTargets, savedNames := targets, names;
      var t := Row(targets[id].fqdn, additional, enabled, false, expected + 1);
      targets := targets[id := t];
      names := Without(names, id, [t.fqdn]);
      var ok := ClaimNames(id, NamesOf(t));
      if !ok {
        targets, names := savedTargets, savedNames;
        return Err(Conflict);
      }
      UpdateAgrees(savedTargets, savedNames, id, t);
      reply := Ok;
    }

    method RetireTarget(id: Id, runActive: bool) returns (reply: Reply)
      requires Valid()
      modifies this
      ensures Valid() && Forward(old(targets), targets)
      ensures reply.Ok? <==> id in old(targets) && !old(targets)[id].retired && !old(targets)[id].enabled && !runActive
      ensures reply.Ok? ==>
                && targets == old(targets)[id := old(targets)[id].(retired := true, revision := old(targets)[id].revision + 1)]
                && forall n :: n in names ==> names[n] != id
      ensures reply == Ok || reply == Err(
                if id !in old(targets) then NotFound
                else if old(targets)[id].retired then Retired
                else if old(targets)[id].enabled then StillEnabled else RunActive)
      ensures reply.Err? ==> targets == old(targets) && names == old(names)
    {
      if id !in targets {
        return Err(NotFound);
      }
      var t := targets[id];
      if t.retired {
        return Err(Retired);
      }
      if t.enabled {
        return Err(StillEnabled);
      }
      if runActive {
        return Err(RunActive);
      }
      RetirementAgrees(targets, names, id, t.(retired := true, revision := t.revision + 1));
      targets := targets[id := t.(retired := true, revision := t.revision + 1)];
      names := Without(names, id, []);
      reply := Ok;
    }
  }
}
