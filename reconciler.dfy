/**
 * The reconciler: the difference, by `id`, between the source catalogue's trans-units
 * and those of a reference locale catalogue.
 */
module Reconciler {
  import opened Wrappers
  import opened Xliff

  /** The ids of `units`, in order (`units.map(u => u.$.id)`). */
  function Ids(units: seq<TransUnit>): (ids: seq<string>)
    ensures |ids| == |units|
    ensures forall i :: 0 <= i < |units| ==> ids[i] == units[i].id
  {
    seq(|units|, i requires 0 <= i < |units| => units[i].id)
  }

  /** The set of ids occurring in `units`. */
  function IdSet(units: seq<TransUnit>): set<string> {
    set u | u in units :: u.id
  }

  /** No two trans-units of `units` share an id. */
  predicate UniqueIds(units: seq<TransUnit>) {
    forall i, j :: 0 <= i < j < |units| ==> units[i].id != units[j].id
  }

  /**
   * The trans-units of `units` whose id is not in `ids`, in their order in `units`:
   * what the source pushes into `newMessages` and `removeMessages`.
   */
  function Missing(units: seq<TransUnit>, ids: seq<string>): (r: seq<TransUnit>)
    ensures |r| <= |units|
    decreases |units|
  {
    if units == [] then []
    else
      var init, last := units[..|units| - 1], units[|units| - 1];
      Missing(init, ids) + (if last.id in ids then [] else [last])
  }

  /**
   * Every trans-unit whose id is not in `ids` is kept exactly as often as it occurs,
   * and none other is kept.
   */
  lemma {:induction false} MissingCount(units: seq<TransUnit>, ids: seq<string>, u: TransUnit)
    ensures multiset(Missing(units, ids))[u] == if u.id in ids then 0 else multiset(units)[u]
    decreases |units|
  {
    if units != [] {
      var init, last := units[..|units| - 1], units[|units| - 1];
      MissingCount(init, ids, u);
      assert units == init + [last];
    }
  }

  /** Membership in the difference, both directions. */
  lemma MissingExactly(units: seq<TransUnit>, ids: seq<string>, u: TransUnit)
    ensures u in Missing(units, ids) <==> u in units && u.id !in ids
  {
    MissingCount(units, ids, u);
    assert u in units <==> multiset(units)[u] > 0;
    assert u in Missing(units, ids) <==> multiset(Missing(units, ids))[u] > 0;
  }

  /** Appending one trans-unit extends the difference by it unless its id is in `ids`. */
  lemma MissingSnoc(init: seq<TransUnit>, last: TransUnit, ids: seq<string>)
    ensures Missing(init + [last], ids) == Missing(init, ids) + (if last.id in ids then [] else [last])
  {
    var s := init + [last];
    assert s[..|s| - 1] == init && s[|s| - 1] == last;
  }

  /** The difference is taken piecewise: its order is that of `units`. */
  lemma {:induction false} MissingConcat(a: seq<TransUnit>, b: seq<TransUnit>, ids: seq<string>)
    ensures Missing(a + b, ids) == Missing(a, ids) + Missing(b, ids)
    decreases |b|
  {
    if b == [] {
      assert a + b == a;
    } else {
      var init, last := b[..|b| - 1], b[|b| - 1];
      var tail := if last.id in ids then [] else [last];
      calc {
        Missing(a + b, ids);
        { assert a + b == (a + init) + [last]; }
        Missing((a + init) + [last], ids);
        { MissingSnoc(a + init, last, ids); }
        Missing(a + init, ids) + tail;
        { MissingConcat(a, init, ids); }
        (Missing(a, ids) + Missing(init, ids)) + tail;
        Missing(a, ids) + (Missing(init, ids) + tail);
        { MissingSnoc(init, last, ids); }
        Missing(a, ids) + Missing(init + [last], ids);
        { assert b == init + [last]; }
        Missing(a, ids) + Missing(b, ids);
      }
    }
  }

  /** Nothing is missing exactly when every id of `units` occurs in `ids`. */
  lemma MissingEmptyIff(units: seq<TransUnit>, ids: seq<string>)
    ensures Missing(units, ids) == [] <==> forall u :: u in units ==> u.id in ids
  {
    if Missing(units, ids) != [] {
      MissingExactly(units, ids, Missing(units, ids)[0]);
    } else {
      forall u | u in units ensures u.id in ids {
        MissingExactly(units, ids, u);
      }
    }
  }

  /** When no id of `units` occurs in `ids`, all of `units` is missing. */
  lemma {:induction false} MissingAll(units: seq<TransUnit>, ids: seq<string>)
    requires forall u :: u in units ==> u.id !in ids
    ensures Missing(units, ids) == units
    decreases |units|
  {
    if units != [] {
      var init, last := units[..|units| - 1], units[|units| - 1];
      assert units == init + [last];
      assert forall u :: u in init ==> u in units;
      MissingAll(init, ids);
      MissingSnoc(init, last, ids);
    }
  }

  /** The result of comparing the source catalogue with the reference catalogue. */
  datatype Plan =
    | UpToDate
    | Changes(newMessages: seq<TransUnit>, removeMessages: seq<TransUnit>)

  /**
   * The reconciliation step: fail if either list is missing, report up to date when
   * the two lists have the same length, and otherwise the new messages (source units
   * whose id the reference lacks, in source order) and the removed messages
   * (reference units whose id the source lacks, in reference order).
   */
  function Reconcile(source: Option<seq<TransUnit>>, reference: Option<seq<TransUnit>>): (r: Result<Plan, Error>)
    ensures r.Err? <==> source.None? || reference.None?
    ensures r.Err? ==> r.error == MessagesMissing
    ensures r == Ok(UpToDate) <==> source.Some? && reference.Some? && |source.value| == |reference.value|
    ensures r.Ok? && r.value.Changes? ==>
      && (forall u :: u in r.value.newMessages <==> u in source.value && u.id !in Ids(reference.value))
      && (forall u :: u in r.value.removeMessages <==> u in reference.value && u.id !in Ids(source.value))
  {
    if source.None? || reference.None? then Err(MessagesMissing)
    else if |source.value| == |reference.value| then Ok(UpToDate)
    else
      var added := Missing(source.value, Ids(reference.value));
      var removed := Missing(reference.value, Ids(source.value));
      assert forall u :: u in added <==> u in source.value && u.id !in Ids(reference.value) by {
        forall u ensures u in added <==> u in source.value && u.id !in Ids(reference.value) {
          MissingExactly(source.value, Ids(reference.value), u);
        }
      }
      assert forall u :: u in removed <==> u in reference.value && u.id !in Ids(source.value) by {
        forall u ensures u in removed <==> u in reference.value && u.id !in Ids(source.value) {
          MissingExactly(reference.value, Ids(source.value), u);
        }
      }
      Ok(Changes(added, removed))
  }

  /**
   * The two `forEach` loops of the reconciler: `removeMessages` collects the reference
   * units whose id is absent from the source, `newMessages` the source units whose id
   * is absent from the reference.
   */
  method ComputeDiff(sourceMessages: seq<TransUnit>, firstFileMessages: seq<TransUnit>)
    returns (newMessages: seq<TransUnit>, removeMessages: seq<TransUnit>)
    ensures newMessages == Missing(sourceMessages, Ids(firstFileMessages))
    ensures removeMessages == Missing(firstFileMessages, Ids(sourceMessages))
  {
    var firstFileSourceIds := Ids(firstFileMessages);
    var sourceFileIds := Ids(sourceMessages);
    removeMessages := [];
    var i := 0;
    while i < |firstFileMessages|
      invariant 0 <= i <= |firstFileMessages|
      invariant removeMessages == Missing(firstFileMessages[..i], sourceFileIds)
    {
      assert firstFileMessages[..i + 1][..i] == firstFileMessages[..i];
      if firstFileMessages[i].id !in sourceFileIds {
        removeMessages := removeMessages + [firstFileMessages[i]];
      }
      i := i + 1;
    }
    assert firstFileMessages[..i] == firstFileMessages;
    newMessages := [];
    var j := 0;
    while j < |sourceMessages|
      invariant 0 <= j <= |sourceMessages|
      invariant newMessages == Missing(sourceMessages[..j], firstFileSourceIds)
    {
      assert sourceMessages[..j + 1][..j] == sourceMessages[..j];
      if sourceMessages[j].id !in firstFileSourceIds {
        newMessages := newMessages + [sourceMessages[j]];
      }
      j := j + 1;
    }
    assert sourceMessages[..j] == sourceMessages;
  }

  // ---------------------------------------------------------------------------
  // Convergence: merging the translated new messages closes the gap.

  lemma UniqueIdsSplit(units: seq<TransUnit>)
    requires UniqueIds(units) && units != []
    ensures UniqueIds(units[..|units| - 1])
    ensures units[|units| - 1].id !in IdSet(units[..|units| - 1])
  {
    var init := units[..|units| - 1];
    forall u | u in init ensures u.id != units[|units| - 1].id {
      var k :| 0 <= k < |init| && init[k] == u;
      assert units[k] == u;
    }
  }

  lemma UniqueIdsExtend(init: seq<TransUnit>, last: TransUnit)
    requires UniqueIds(init) && last.id !in IdSet(init)
    ensures UniqueIds(init + [last])
  {
    var s := init + [last];
    forall i, j | 0 <= i < j < |s| ensures s[i].id != s[j].id {
      if j == |init| {
        assert s[i] in init;
      }
    }
  }

  /** A catalogue with unique ids has as many distinct ids as entries. */
  lemma {:induction false} UniqueIdsCard(units: seq<TransUnit>)
    requires UniqueIds(units)
    ensures |IdSet(units)| == |units|
    decreases |units|
  {
    if units != [] {
      var init, last := units[..|units| - 1], units[|units| - 1];
      UniqueIdsSplit(units);
      UniqueIdsCard(init);
      assert units == init + [last];
      assert IdSet(units) == IdSet(init) + {last.id};
    }
  }

  /** The ids of the difference are the ids of `units` outside `ids`, still unique. */
  lemma {:induction false} MissingIds(units: seq<TransUnit>, ids: seq<string>)
    requires UniqueIds(units)
    ensures UniqueIds(Missing(units, ids))
    ensures IdSet(Missing(units, ids)) == IdSet(units) - set x | x in ids
    decreases |units|
  {
    if units != [] {
      var init, last := units[..|units| - 1], units[|units| - 1];
      UniqueIdsSplit(units);
      MissingIds(init, ids);
      assert units == init + [last];
      assert IdSet(units) == IdSet(init) + {last.id};
      var m := Missing(init, ids);
      MissingSnoc(init, last, ids);
      if last.id in ids {
        assert Missing(units, ids) == m + [];
        assert m + [] == m;
      } else {
        assert IdSet(m + [last]) == IdSet(m) + {last.id};
        UniqueIdsExtend(m, last);
      }
    }
  }

  /** The id set of a catalogue, as the set of its `Ids` sequence. */
  lemma IdsAsSet(units: seq<TransUnit>)
    ensures (set x | x in Ids(units)) == IdSet(units)
  {
    var ids := Ids(units);
    forall x | x in ids ensures x in IdSet(units) {
      var k :| 0 <= k < |units| && ids[k] == x;
      assert units[k] in units;
    }
    forall x | x in IdSet(units) ensures x in ids {
      var u :| u in units && u.id == x;
      var k :| 0 <= k < |units| && units[k] == u;
      assert ids[k] == x;
    }
  }

  /**
   * For unique ids and a reference whose ids all occur in the source, exactly
   * `|source| - |reference|` messages are new.
   */
  lemma MissingLength(source: seq<TransUnit>, reference: seq<TransUnit>)
    requires UniqueIds(source) && UniqueIds(reference)
    requires forall u :: u in reference ==> u.id in Ids(source)
    ensures |Missing(source, Ids(reference))| + |reference| == |source|
  {
    var added := Missing(source, Ids(reference));
    MissingIds(source, Ids(reference));
    UniqueIdsCard(source);
    UniqueIdsCard(reference);
    UniqueIdsCard(added);
    IdsAsSet(reference);
    IdsAsSet(source);
    var refIds, srcIds := IdSet(reference), IdSet(source);
    assert refIds <= srcIds;
    assert srcIds == (srcIds - refIds) + refIds;
    assert |srcIds| == |srcIds - refIds| + |refIds|;
  }

  /** Every source id is a reference id or the id of a translated new message. */
  lemma MergedCoversSource(source: seq<TransUnit>, reference: seq<TransUnit>, translated: seq<TransUnit>)
    requires Ids(translated) == Ids(Missing(source, Ids(reference)))
    ensures forall u :: u in source ==> u.id in Ids(reference + translated)
  {
    var added := Missing(source, Ids(reference));
    var all := Ids(reference + translated);
    forall u | u in source ensures u.id in all {
      if u.id in Ids(reference) {
        var k :| 0 <= k < |reference| && Ids(reference)[k] == u.id;
        assert all[k] == u.id;
      } else {
        MissingExactly(source, Ids(reference), u);
        var k :| 0 <= k < |added| && added[k] == u;
        assert Ids(translated)[k] == u.id;
        assert all[|reference| + k] == u.id;
      }
    }
  }

  /**
   * If the reference's ids all occur in the source, both have unique ids, and the
   * translations of the new messages keep their ids, then appending the translations
   * to the reference makes it as long as the source and leaves no new message: the
   * next reconciliation reports it up to date.
   */
  lemma MergeClosesGap(source: seq<TransUnit>, reference: seq<TransUnit>, translated: seq<TransUnit>)
    requires UniqueIds(source) && UniqueIds(reference)
    requires forall u :: u in reference ==> u.id in Ids(source)
    requires Ids(translated) == Ids(Missing(source, Ids(reference)))
    ensures |reference + translated| == |source|
    ensures Missing(source, Ids(reference + translated)) == []
    ensures Reconcile(Some(source), Some(reference + translated)) == Ok(UpToDate)
  {
    MergedLength(source, reference, translated);
    MergedCoversSource(source, reference, translated);
    MissingEmptyIff(source, Ids(reference + translated));
  }

  /** Appending the translations makes the reference as long as the source. */
  lemma MergedLength(source: seq<TransUnit>, reference: seq<TransUnit>, translated: seq<TransUnit>)
    requires UniqueIds(source) && UniqueIds(reference)
    requires forall u :: u in reference ==> u.id in Ids(source)
    requires Ids(translated) == Ids(Missing(source, Ids(reference)))
    ensures |reference + translated| == |source|
  {
    MissingLength(source, reference);
    assert |translated| == |Ids(translated)| == |Missing(source, Ids(reference))|;
  }

  /** The worked scenario: source `[a, b, c]` against reference `[a, b]`. */
  lemma ScenarioThreeAgainstTwo(a: TransUnit, b: TransUnit, c: TransUnit)
    requires a.id == "a" && b.id == "b" && c.id == "c"
    ensures Reconcile(Some([a, b, c]), Some([a, b])) == Ok(Changes([c], []))
  {
    var ids := Ids([a, b]);
    assert ids == ["a", "b"];
    assert [a, b, c][..2] == [a, b] && [a, b][..1] == [a] && [a][..0] == [];
    assert Missing([a], ids) == [];
    assert Missing([a, b], ids) == [];
    assert Missing([a, b, c], ids) == [c];
    var sids := Ids([a, b, c]);
    assert sids == ["a", "b", "c"];
    assert Missing([a], sids) == [];
    assert Missing([a, b], sids) == [];
  }

  /** Equal lengths count as in sync even when the id sets differ. */
  lemma FastPathIgnoresIds(a: TransUnit, b: TransUnit)
    requires a.id != b.id
    ensures Missing([a], Ids([b])) == [a]
    ensures Reconcile(Some([a]), Some([b])) == Ok(UpToDate)
  {
    assert Ids([b]) == [b.id];
    assert [a][..0] == [];
  }
}
