/** The replay ledger: one marker per accepted run, pruned by another clock reading than
    the one an envelope is verified against. Times are nanoseconds since the Unix epoch;
    a marker keeps whole seconds. */
module ReplayLedger {
  import opened Basics

  type RunId = string

  const SECOND := 1_000_000_000
  const MAX_VALIDITY := 24 * 3600 * SECOND

  /** Seconds since the epoch of the zero time, which stands for an unset expiry. */
  const ZERO_TIME := -62_135_596_800

  function Seconds(t: int): int {
    t / SECOND
  }

  /** The first whole second at or after t. */
  function CeilTime(t: int): int {
    (t + SECOND - 1) / SECOND * SECOND
  }

  lemma WholeSeconds(t: int)
    ensures Seconds(t) * SECOND <= t < Seconds(t) * SECOND + SECOND
    ensures t <= CeilTime(t) < t + SECOND
    ensures forall s: int :: s * SECOND < t ==> s * SECOND + SECOND <= CeilTime(t)
  {}

  // ----- the ledger ----------------------------------------------------------------------------

  /** A marker file: the seconds it holds, when they can be read, and its modification time. */
  datatype Marker = Marker(expiry: Option<int>, modified: int)

  type Markers = map<RunId, Marker>

  /** The time a marker is judged by: its expiry, or its modification time when the file cannot
      be read or holds no expiry. */
  function Stamp(m: Marker, read: bool): int {
    if read && m.expiry.Some? && m.expiry.value != ZERO_TIME then m.expiry.value * SECOND else m.modified
  }

  datatype Outcome = Accepted | Replayed | Failed

  /** One verified presentation of an envelope, from the clock reading to the outcome: unread
      are the runs whose markers could not be read while pruning, and pruned is what pruning
      left of the ledger. The clock is read before the lock is taken. */
  datatype Section = Section(
    run: RunId, issuedAt: int, expiresAt: int, now: nat, skew: int,
    unread: set<RunId>, pruned: Markers, outcome: Outcome)

  /** The envelope's window contains the reading; expiry has no tolerance. */
  predicate Verified(s: Section) {
    && s.issuedAt < s.expiresAt <= s.issuedAt + MAX_VALIDITY
    && s.now <= s.expiresAt && s.issuedAt <= s.now + s.skew
  }

  /** Pruning removes nothing that is not judged to lie before the cutoff, and may fail to
      remove something that is. */
  ghost predicate PrunedBy(before: Markers, after: Markers, cutoff: int, unread: set<RunId>) {
    && (forall r | r in after :: r in before && after[r] == before[r])
    && forall r | r in before && r !in after :: Stamp(before[r], r !in unread) < cutoff
  }

  ghost predicate Performs(before: Markers, after: Markers, s: Section) {
    && PrunedBy(before, s.pruned, s.now - s.skew, s.unread)
    && match s.outcome
       case Accepted =>
         && s.run !in s.pruned
         && s.run in after && after == s.pruned[s.run := after[s.run]]
         && after[s.run].expiry == Some(Seconds(s.expiresAt))
       case Replayed => s.run in s.pruned && after == s.pruned
       case Failed =>
         // A marker may be left behind, whole or cut short.
         after == s.pruned || (s.run !in s.pruned && s.run in after && after == s.pruned[s.run := after[s.run]])
  }

  /** What is left of the ledger when every marker can be read and removed. */
  function Unexpired(markers: Markers, cutoff: int): Markers {
    map r | r in markers && cutoff <= Stamp(markers[r], true) :: markers[r]
  }

  class Ledger {
    const faulty: nat -> bool   // which file operations fail
    var ops: nat                // the file operations so far
    var markers: Markers

    constructor (faulty: nat -> bool)
      ensures this.faulty == faulty && ops == 0 && markers == map[]
    {
      this.faulty := faulty;
      ops, markers := 0, map[];
    }

    ghost predicate Faultless(since: nat)
      reads this`ops
    {
      forall c: nat | since <= c < ops :: !faulty(c)
    }

    method Fails() returns (fails: bool)
      modifies this`ops
      ensures ops == old(ops) + 1 && fails == faulty(old(ops))
    {
      fails := faulty(ops);
      ops := ops + 1;
    }

    /** One marker, which is there. */
    method PruneOne(r: RunId, cutoff: int) returns (read: bool)
      requires r in markers
      modifies this
      ensures old(ops) < ops
      ensures markers == old(markers) || (markers == old(markers) - {r} && Stamp(old(markers)[r], read) < cutoff)
      ensures Faultless(old(ops)) ==>
                read && markers == if Stamp(old(markers)[r], true) < cutoff then old(markers) - {r} else old(markers)
    {
      var m := markers[r];
      var unreadable := Fails();
      read := !unreadable;
      var expiry := if read && m.expiry.Some? then m.expiry.value else ZERO_TIME;
      var stamp := expiry * SECOND;
      if expiry == ZERO_TIME {
        var undated := Fails();
        if undated {
          return;
        }
        stamp := m.modified;
      }
      if stamp < cutoff {
        var stuck := Fails();
        if !stuck {
          markers := markers - {r};
        }
      }
    }

    /** Best effort: a file may be unreadable, or not to be removed. When no operation fails,
        exactly the markers of the past are removed. */
    method Prune(cutoff: int) returns (ghost unread: set<RunId>)
      modifies this
      ensures old(ops) < ops
      ensures PrunedBy(old(markers), markers, cutoff, unread)
      ensures Faultless(old(ops)) ==> unread == {} && markers == Unexpired(old(markers), cutoff)
    {
      unread := {};
      var unlisted := Fails();
      if unlisted {
        return;
      }
      var entries := markers.Keys;
      while entries != {}
        invariant old(ops) < ops
        invariant entries <= old(markers).Keys && unread !! entries
        invariant forall r | r in entries :: r in markers
        invariant PrunedBy(old(markers), markers, cutoff, unread)
        invariant Faultless(old(ops)) ==>
            unread == {} && forall r | r in old(markers) && r !in entries ::
              r in markers <==> cutoff <= Stamp(old(markers)[r], true)
        decreases |entries|
      {
        var r :| r in entries;
        entries := entries - {r};
        var read := PruneOne(r, cutoff);
        if !read {
          unread := unread + {r};
        }
      }
    }

    /** A new marker, created, written and synced. One that could not be written is taken away
        again, if that works. */
    method WriteMarker(run: RunId, expiresAt: int) returns (written: bool)
      requires run !in markers
      modifies this
      ensures ops == old(ops) + 2
      ensures written <==> !faulty(old(ops)) && !faulty(old(ops) + 1)
      ensures markers == old(markers) || (run in markers && markers == old(markers)[run := markers[run]])
      ensures written ==> run in markers && markers[run].expiry == Some(Seconds(expiresAt))
    {
      var modified: int := *;
      markers := markers[run := Marker(None, modified)];
      var fails := Fails();
      if fails {
        var whole: bool := *;
        if whole {
          markers := markers[run := Marker(Some(Seconds(expiresAt)), modified)];
        }
        written := false;
        fails := Fails();
        if !fails {
          markers := markers - {run};
          assert markers == old(markers);
        }
      } else {
        markers := markers[run := Marker(Some(Seconds(expiresAt)), modified)];
        fails := Fails();
        written := !fails;
      }
    }

    /** Runs under the ledger's exclusive lock; any file operation may fail. It fails exactly
        when the directory cannot be used, the marker cannot be opened, or a new one cannot be
        written or synced; opening is the number of the operation that opens it. Otherwise a
        run without a marker is accepted and one with a marker is a replay. */
    method RecordJob(run: RunId, issuedAt: int, expiresAt: int, now: nat, skew: int)
      returns (outcome: Outcome, ghost section: Section, ghost opening: nat)
      modifies this
      ensures section == Section(run, issuedAt, expiresAt, now, skew, section.unread, section.pruned, outcome)
      ensures Performs(old(markers), markers, section)
      ensures outcome == Replayed ==> markers.Keys <= old(markers).Keys && run in old(markers)
      ensures old(ops) < opening && old(ops) < ops <= opening + 3
      ensures outcome == Failed <==>
                || faulty(old(ops)) || faulty(opening)
                || (run !in section.pruned && (faulty(opening + 1) || faulty(opening + 2)))
      ensures outcome != Failed ==> (outcome == Replayed <==> run in section.pruned)
      ensures Faultless(old(ops)) ==>
                && section.unread == {} && section.pruned == Unexpired(old(markers), now - skew)
                && outcome == if run in Unexpired(old(markers), now - skew) then Replayed else Accepted
    {
      opening := ops + 1;
      var fails := Fails();
      if fails {
        return Failed, Section(run, issuedAt, expiresAt, now, skew, {}, markers, Failed), opening;
      }
      ghost var unread := Prune(now - skew);
      ghost var pruned := markers;
      opening := ops;
      fails := Fails();
      if fails {
        outcome := Failed;
      } else if run in markers {
        outcome := Replayed;
      } else {
        var written := WriteMarker(run, expiresAt);
        outcome := if written then Accepted else Failed;
      }
      section := Section(run, issuedAt, expiresAt, now, skew, unread, pruned, outcome);
    }
  }

  // ----- any number of Runners -----------------------------------------------------------------

  ghost predicate SectionAt(ledgers: seq<Markers>, sections: seq<Section>, i: nat)
    requires i < |sections| && |ledgers| == |sections| + 1
  {
    Verified(sections[i]) && SECOND <= sections[i].skew && Performs(ledgers[i], ledgers[i + 1], sections[i])
  }

  /** The critical sections of all Runners sharing a state directory, in their order. Every
      configuration has a clock skew of at least a second. */
  ghost predicate IsHistory(ledgers: seq<Markers>, sections: seq<Section>) {
    |ledgers| == |sections| + 1 && forall i: nat | i < |sections| :: SectionAt(ledgers, sections, i)
  }

  /** The section's reading has passed an expiry. */
  predicate Prunes(s: Section, expiresAt: int) {
    Seconds(expiresAt) * SECOND < s.now - s.skew
  }

  /** The section may remove the marker: by its expiry when it reads it, otherwise by the time
      it was written. */
  predicate Forgets(s: Section, run: RunId, expiresAt: int, modified: int) {
    if run in s.unread then modified < s.now - s.skew else Prunes(s, expiresAt)
  }

  predicate Marked(markers: Markers, run: RunId, expiresAt: int, modified: int) {
    run in markers && markers[run] == Marker(Some(Seconds(expiresAt)), modified)
  }

  /** One section keeps a marker, unless it forgets it. */
  lemma {:induction false} OneSectionKeeps(
      before: Markers, after: Markers, s: Section, run: RunId, expiresAt: int, modified: int)
    requires Performs(before, after, s) && Marked(before, run, expiresAt, modified) && 0 <= expiresAt
    ensures Forgets(s, run, expiresAt, modified) ||
            (Marked(s.pruned, run, expiresAt, modified) && Marked(after, run, expiresAt, modified))
  {}

  lemma {:induction false} MarkerStays(
      ledgers: seq<Markers>, sections: seq<Section>, i: nat, k: nat, run: RunId, expiresAt: int, modified: int)
    requires IsHistory(ledgers, sections) && i < k < |ledgers| && 0 <= expiresAt
    requires Marked(ledgers[i + 1], run, expiresAt, modified)
    requires forall m: nat | i < m < k :: !Forgets(sections[m], run, expiresAt, modified)
    ensures Marked(ledgers[k], run, expiresAt, modified)
    decreases k
  {
    if i + 1 < k {
      MarkerStays(ledgers, sections, i, k - 1, run, expiresAt, modified);
      assert SectionAt(ledgers, sections, k - 1);
      OneSectionKeeps(ledgers[k - 1], ledgers[k], sections[k - 1], run, expiresAt, modified);
    }
  }

  /** The expiry of a verified envelope has not passed the cutoff of its own section. */
  lemma {:induction false} NoSectionPrunesItsOwn(s: Section, modified: int)
    requires Verified(s) && SECOND <= s.skew
    ensures Forgets(s, s.run, s.expiresAt, modified) <==> s.run in s.unread && modified < s.now - s.skew
  {}

  /** Nothing pruned by its expiry at an earlier reading can still verify at this one. */
  lemma {:induction false} UnexpiredIsNotPruned(s: Section, expiresAt: int, now: int)
    requires now <= expiresAt && CeilTime(s.now - s.skew) <= now
    ensures !Prunes(s, expiresAt)
  {}

  /** What a section must be like for a marker written at a time to outlast it as long as its
      envelope verifies at the later reading: when it can read the marker its own reading is
      not ahead by more than the skew, in whole seconds; when it cannot, the marker is no
      older than the skew. */
  predicate Harmless(s: Section, run: RunId, modified: int, later: int) {
    if run in s.unread then s.now - s.skew <= modified else CeilTime(s.now - s.skew) <= later
  }

  /** An envelope accepted once is never accepted again, whichever Runners it is shown to:
      provided that the sections in between are harmless to its marker, and the last one does
      not fail to read a marker older than the skew. */
  lemma {:induction false} AcceptedAtMostOnce(
      ledgers: seq<Markers>, sections: seq<Section>, i: nat, k: nat, modified: int)
    requires IsHistory(ledgers, sections) && i < k < |sections|
    requires sections[i].run == sections[k].run && sections[i].expiresAt == sections[k].expiresAt
    requires sections[i].outcome == Accepted
    requires Marked(ledgers[i + 1], sections[i].run, sections[i].expiresAt, modified)
    requires forall m: nat | i < m < k :: Harmless(sections[m], sections[k].run, modified, sections[k].now)
    requires sections[k].run in sections[k].unread ==> sections[k].now - sections[k].skew <= modified
    ensures sections[k].outcome != Accepted
  {
    var run, expiresAt := sections[i].run, sections[i].expiresAt;
    assert SectionAt(ledgers, sections, i) && SectionAt(ledgers, sections, k);
    forall m: nat | i < m < k ensures !Forgets(sections[m], run, expiresAt, modified) {
      if run !in sections[m].unread {
        UnexpiredIsNotPruned(sections[m], expiresAt, sections[k].now);
      }
    }
    MarkerStays(ledgers, sections, i, k, run, expiresAt, modified);
    NoSectionPrunesItsOwn(sections[k], modified);
    OneSectionKeeps(ledgers[k], ledgers[k + 1], sections[k], run, expiresAt, modified);
  }

  /** Accepting writes the marker the theorem speaks of. */
  lemma AcceptanceIsMarked(ledgers: seq<Markers>, sections: seq<Section>, i: nat)
    requires IsHistory(ledgers, sections) && i < |sections| && sections[i].outcome == Accepted
    ensures sections[i].run in ledgers[i + 1]
    ensures Marked(ledgers[i + 1], sections[i].run, sections[i].expiresAt, ledgers[i + 1][sections[i].run].modified)
  {
    assert SectionAt(ledgers, sections, i);
  }

  /** Readings that step back by no more than the skew less a second meet the condition. */
  lemma SmallStepsBackAreSafe(p: int, skew: int, n: int)
    requires p - skew + SECOND <= n
    ensures CeilTime(p - skew) <= n
  {}

  /** Two readings and skews, whether each section fails to read the marker in question, and
      when that marker was written. */
  datatype Readings = Readings(
    p: nat, pSkew: int, pUnread: bool, n: nat, nSkew: int, nUnread: bool, modified: int)

  /** The section in between, or the later one itself, can lose the marker. */
  predicate CanForget(x: Readings) {
    || (if x.pUnread then x.modified < x.p - x.pSkew else x.n < CeilTime(x.p - x.pSkew))
    || (x.nUnread && x.modified < x.n - x.nSkew)
  }

  ghost predicate AcceptsTwice(x: Readings, ledgers: seq<Markers>, sections: seq<Section>) {
    && IsHistory(ledgers, sections) && |sections| == 3
    && sections[1].now == x.p && sections[1].skew == x.pSkew && sections[2].now == x.n && sections[2].skew == x.nSkew
    && sections[0].run == sections[2].run && sections[0].expiresAt == sections[2].expiresAt
    && (sections[0].run in sections[1].unread <==> x.pUnread)
    && (sections[0].run in sections[2].unread <==> x.nUnread)
    && sections[0].outcome == Accepted && sections[2].outcome == Accepted
    && Marked(ledgers[1], sections[0].run, sections[0].expiresAt, x.modified)
  }

  /** The condition is exact: with a section in between and a later one, some envelope gets in
      twice if and only if the later reading lies before the first whole second at or after the
      one in between less its skew, or a section that cannot read the marker finds it older
      than its skew. */
  lemma {:induction false} ReplayNeedsALostMarker(x: Readings)
    requires SECOND <= x.pSkew && SECOND <= x.nSkew
    ensures (exists ledgers, sections :: AcceptsTwice(x, ledgers, sections)) <==> CanForget(x)
  {
    if CanForget(x) {
      var ledgers, sections := AcceptedAgain(x);
      assert AcceptsTwice(x, ledgers, sections);
    }
    forall ledgers, sections | AcceptsTwice(x, ledgers, sections) ensures CanForget(x) {
      if !CanForget(x) {
        AcceptedAtMostOnce(ledgers, sections, 0, 2, x.modified);
      }
    }
  }

  /** The envelope that expires at the later reading is accepted then, forgotten in between or
      by the last section itself, and accepted again. */
  lemma {:induction false} AcceptedAgain(x: Readings) returns (ledgers: seq<Markers>, sections: seq<Section>)
    requires SECOND <= x.pSkew && SECOND <= x.nSkew && CanForget(x)
    ensures AcceptsTwice(x, ledgers, sections)
  {
    var n, p := x.n, x.p;
    var mine, other := Marker(Some(Seconds(n)), x.modified), Marker(Some(Seconds(p)), 0);
    var early := if x.pUnread then x.modified < p - x.pSkew else n < CeilTime(p - x.pSkew);
    var kept: Markers := if early then map[] else map["a" := mine];
    var pLost: set<RunId>, nLost: set<RunId> := if x.pUnread then {"a"} else {}, if x.nUnread then {"a"} else {};
    var first := Section("a", n - SECOND, n, n, x.nSkew, {}, map[], Accepted);
    var between := Section("b", p - SECOND, p, p, x.pSkew, pLost, kept, Accepted);
    var again := Section("a", n - SECOND, n, n, x.nSkew, nLost, map["b" := other], Accepted);
    ledgers := [map[], map["a" := mine], kept["b" := other], map["b" := other, "a" := mine]];
    sections := [first, between, again];
    if early && !x.pUnread {
      PrunedEarly(p, x.pSkew, n);
    }
    assert Performs(ledgers[0], ledgers[1], first);
    assert Performs(ledgers[1], ledgers[2], between);
    assert Performs(ledgers[2], ledgers[3], again);
    forall i: nat | i < 3 ensures SectionAt(ledgers, sections, i) {}
  }

  /** No clock needs to step back: an envelope valid for a day is accepted, and again after the
      five minutes of the skew and a second, when its marker cannot be read. */
  lemma AFailedReadForgetsAnEnvelope(run: RunId)
    ensures exists ledgers: seq<Markers>, sections: seq<Section> ::
              && IsHistory(ledgers, sections) && |sections| == 2
              && sections[0].run == sections[1].run == run
              && sections[0].expiresAt == sections[1].expiresAt == MAX_VALIDITY
              && sections[0].skew == sections[1].skew == 300 * SECOND
              && sections[0].now == 0 && sections[1].now == 301 * SECOND && sections[1].unread == {run}
              && sections[0].outcome == Accepted && sections[1].outcome == Accepted
  {
    var mine := Marker(Some(Seconds(MAX_VALIDITY)), 0);
    var skew := 300 * SECOND;
    var first := Section(run, 0, MAX_VALIDITY, 0, skew, {}, map[], Accepted);
    var again := Section(run, 0, MAX_VALIDITY, 301 * SECOND, skew, {run}, map[], Accepted);
    var ledgers, sections := [map[], map[run := mine], map[run := mine]], [first, again];
    assert Performs(ledgers[0], ledgers[1], first);
    assert Performs(ledgers[1], ledgers[2], again);
    assert IsHistory(ledgers, sections);
  }

  lemma PrunedEarly(p: int, skew: int, n: int)
    requires n < CeilTime(p - skew)
    ensures Seconds(n) * SECOND < p - skew
  {}

  /** The promise is per envelope: a second envelope for the same run, expiring later, is
      accepted once the marker of the first is gone. */
  lemma ASecondExpiryIsAcceptedAgain(run: RunId, start: nat, skew: int)
    requires SECOND <= skew
    ensures exists ledgers: seq<Markers>, sections: seq<Section> ::
              && IsHistory(ledgers, sections) && |sections| == 2
              && sections[0].run == sections[1].run == run && sections[0].now <= sections[1].now
              && sections[0].outcome == Accepted && sections[1].outcome == Accepted
  {
    var later := start + skew + SECOND + SECOND;
    var first := Section(run, start, start + SECOND, start, skew, {}, map[], Accepted);
    var second := Section(run, later, later + SECOND, later, skew, {}, map[], Accepted);
    var ledgers := [map[], map[run := Marker(Some(Seconds(start + SECOND)), 0)],
                    map[run := Marker(Some(Seconds(later + SECOND)), 0)]];
    var sections := [first, second];
    WholeSeconds(start + SECOND);
    assert Performs(ledgers[0], ledgers[1], first);
    assert Performs(ledgers[1], ledgers[2], second);
    assert IsHistory(ledgers, sections);
  }
}
