/** The acme_accounts table in place: every method is one transaction, and one that
    ends in an error leaves the rows as they were. */
module AccountTable {
  import opened Basics
  import A = Accounts
  import opened Types = Accounts

  class AccountTable {
    var rows: Table

    /** The column constraint on generation. */
    ghost predicate Checked()
      reads this
    {
      forall k | k in rows :: 1 <= k.generation
    }

    constructor ()
      ensures rows == map[]
    {
      rows := map[];
    }

    method Highest(a: Account) returns (max: int)
      requires Checked()
      ensures IsHighest(rows, a, max)
    {
      max := 0;
      var left := set k | k in rows && k.account == a;
      ghost var all := left;
      while left != {}
        invariant left <= all && 0 <= max
        invariant forall k | k in all && k !in left :: k.generation <= max
        invariant if max == 0 then left == all else Key(a, max) in rows
        decreases |left|
      {
        var k :| k in left;
        if max < k.generation {
          max := k.generation;
          assert k == Key(a, max);
        }
        left := left - {k};
      }
      assert forall k | k in rows && k.account == a :: k in all;
    }

    method Request(a: Account, g: int, payload: string, scopeRetired: bool) returns (reply: Reply, ghost highest: int)
      requires Checked()
      modifies this
      ensures IsHighest(old(rows), a, highest)
      ensures (rows, reply) == A.Request(old(rows), a, g, payload, scopeRetired, highest)
      ensures reply == Ok <==> && (a.scope == "" || !scopeRetired) && g == highest + 1
                               && forall k | k in old(rows) && k.account == a :: old(rows)[k].phase != Provisioning
      ensures reply == Err(TargetRetired) <==> a.scope != "" && scopeRetired
      ensures rows == if reply == Ok then old(rows)[Key(a, g) := Row(Provisioning, Some(payload), None)] else old(rows)
      ensures Checked()
    {
      var max := Highest(a);
      highest := max;
      if a.scope != "" && scopeRetired {
        return Err(TargetRetired), highest;
      }
      if g != max + 1 {
        return Err(Conflict), highest;
      }
      if Key(a, g) in rows || HasPending(rows, a) {
        return Err(Conflict), highest;
      }
      rows := rows[Key(a, g) := Row(Provisioning, Some(payload), None)];
      reply := Ok;
      assert 0 <= max;
    }

    /** Attaches the oldest pending generation that no run carries, if there is one. */
    method Claim(a: Account, run: RunId) returns (claimed: Option<int>, payload: string)
      modifies this
      ensures claimed.None? ==> rows == old(rows) && payload == "" && forall k | Claimable(rows, k) :: k.account != a
      ensures claimed.Some? ==>
                var k := Key(a, claimed.value);
                && Claimable(old(rows), k) && rows == A.Claim(old(rows), k, run)
                && rows == old(rows)[k := Row(Provisioning, old(rows)[k].payload, Some(run))]
                && old(rows)[k].phase == Provisioning && old(rows)[k].run == None
                && payload == (if old(rows)[k].payload.Some? then old(rows)[k].payload.value else "")
                && forall x | Claimable(old(rows), x) && x.account == a :: k.generation <= x.generation
      ensures old(Checked()) ==> Checked()
    {
      payload := "";
      claimed := None;
      var pending := set k | k in rows && k.account == a && Claimable(rows, k);
      ghost var all := pending;
      while pending != {}
        invariant pending <= all
        invariant claimed.None? ==> pending == all
        invariant claimed.Some? ==> Key(a, claimed.value) in all
        invariant claimed.Some? ==> forall k | k in all && k !in pending :: claimed.value <= k.generation
        decreases |pending|
      {
        var k :| k in pending;
        if claimed.None? || k.generation < claimed.value {
          claimed := Some(k.generation);
          assert k == Key(a, k.generation);
        }
        pending := pending - {k};
      }
      assert forall k | Claimable(rows, k) && k.account == a :: k in all;
      if claimed.Some? {
        var k := Key(a, claimed.value);
        if rows[k].payload.Some? {
          payload := rows[k].payload.value;
        }
        rows := rows[k := rows[k].(run := Some(run))];
      }
    }

    method Release(k: Key, run: RunId)
      modifies this
      ensures rows == A.Release(old(rows), k, run)
      ensures rows == if k in old(rows) && old(rows)[k].phase == Provisioning && old(rows)[k].run == Some(run)
                      then old(rows)[k := Row(Provisioning, old(rows)[k].payload, None)] else old(rows)
      ensures old(Checked()) ==> Checked()
    {
      if Attached(rows, k, run) {
        rows := rows[k := rows[k].(run := None)];
      }
    }

    /** Retires the active generation, then activates the new one; when the new one
        turns out not to be attached to the run, the retirement is undone. */
    method Complete(k: Key, run: RunId, registered: bool) returns (reply: Reply)
      modifies this
      ensures (rows, reply) == A.Complete(old(rows), k, run, registered)
      ensures reply == if k in old(rows) && old(rows)[k].phase == Provisioning && old(rows)[k].run == Some(run)
                       then Ok else Err(Conflict)
      ensures reply != Ok ==> rows == old(rows)
      ensures reply == Ok ==> rows.Keys == old(rows).Keys && forall x | x in rows ::
                rows[x] == if x == k then Row(if registered then Active else Failed, None, None)
                           else if registered && x.account == k.account && old(rows)[x].phase == Active
                           then Row(Retired, old(rows)[x].payload, old(rows)[x].run) else old(rows)[x]
      ensures old(Checked()) ==> Checked()
    {
      var saved := rows;
      if registered {
        var previous := set x | x in rows && x.account == k.account && x != k && rows[x].phase == Active;
        ghost var all := previous;
        while previous != {}
          invariant previous <= all && rows.Keys == saved.Keys
          invariant forall x | x in rows ::
              rows[x] == if x in all && x !in previous then saved[x].(phase := Retired) else saved[x]
          decreases |previous|
        {
          var x :| x in previous;
          rows := rows[x := rows[x].(phase := Retired)];
          previous := previous - {x};
        }
        assert rows == RetireOthers(saved, k);
      }
      if !Attached(rows, k, run) {
        rows := saved;
        return Err(Conflict);
      }
      rows := rows[k := Row(if registered then Active else Failed, None, None)];
      reply := Ok;
    }

    /** Cancels a request that is pending and not attached to a run: its row says so and has
        neither credential nor run from then on. Otherwise nothing changes, and the answer
        says whether there is such a request at all. */
    method Cancel(k: Key) returns (reply: Reply)
      modifies this
      ensures (rows, reply) == A.Cancel(old(rows), k)
      ensures reply == Ok <==> k in old(rows) && old(rows)[k].phase == Provisioning && old(rows)[k].run == None
      ensures reply == Err(NotFound) <==> k !in old(rows)
      ensures reply == Ok || reply == Err(NotFound) || reply == Err(Conflict)
      ensures rows == if reply == Ok then old(rows)[k := Row(Cancelled, None, None)] else old(rows)
      ensures old(Checked()) ==> Checked()
    {
      if Claimable(rows, k) {
        rows := rows[k := Row(Cancelled, None, None)];
        return Ok;
      }
      reply := Err(if k in rows then Conflict else NotFound);
    }

    /** The part of retiring a target that withdraws its pending requests. */
    method CancelScope(target: TargetId)
      modifies this
      ensures rows == A.CancelScope(old(rows), target)
      ensures rows.Keys == old(rows).Keys && forall k | k in rows ::
                rows[k] == if k.account.scope == target && old(rows)[k].phase == Provisioning
                           then Row(Cancelled, None, None) else old(rows)[k]
      ensures old(Checked()) ==> Checked()
    {
      ghost var saved := rows;
      var left := set k | k in rows && k.account.scope == target && rows[k].phase == Provisioning;
      ghost var all := left;
      while left != {}
        invariant left <= all && rows.Keys == saved.Keys
        invariant forall k | k in rows :: rows[k] == if k in all && k !in left then Row(Cancelled, None, None) else saved[k]
        decreases |left|
      {
        var k :| k in left;
        rows := rows[k := Row(Cancelled, None, None)];
        left := left - {k};
      }
      assert rows == A.CancelScope(saved, target);
    }

    method ActiveGeneration(a: Account) returns (g: int)
      requires Checked()
      ensures IsActiveGeneration(rows, a, g)
      ensures if g == 0 then forall h :: !HasPhase(rows, Key(a, h), Active)
              else Key(a, g) in rows && rows[Key(a, g)].phase == Active
    {
      g := 0;
      var active := set k | k in rows && k.account == a && rows[k].phase == Active;
      assert forall k | k in rows && k.account == a && rows[k].phase == Active :: k in active;
      if active != {} {
        var k :| k in active;
        g := k.generation;
        assert k == Key(a, g);
      }
    }
  }
}
