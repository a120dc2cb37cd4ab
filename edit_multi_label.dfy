/** The label edit operators: reconciling one sample's labels with a desired list, bulk add and
    bulk remove over a selection, appending a class to a group's class list, and deleting classes
    from every sample and then from the class list. A label group's field on a sample is a
    Classifications whose entries are edited in place (append, and pop by index). */
module EditMultiLabel {
  import opened Wrappers
  import opened Text
  import opened Samples

  function ToSet(s: seq<string>): set<string>
  {
    set l | l in s
  }

  /** `_get_labels(sample, group)`: the distinct labels of a Classifications field; nothing for
      any other value. Python returns them as `list(set(...))`, whose order is unspecified. */
  function GetLabels(f: Field): (r: set<string>)
    ensures f.Null? ==> r == {}
    ensures f.Classifications? ==> forall l :: l in r <==> l in f.labels
  {
    if f.Classifications? then ToSet(f.labels) else {}
  }

  /** `_label_in_fields(entries, label)`: scans the entries for one carrying the label `name`. */
  method LabelInFields(entries: seq<string>, name: string) returns (found: bool)
    ensures found <==> name in entries
  {
    for i := 0 to |entries|
      invariant name !in entries[..i]
    {
      if entries[i] == name {
        return true;
      }
    }
    assert entries[..|entries|] == entries;
    return false;
  }

  // ----- removal ------------------------------------------------------------------------

  /** The entries whose label is not in `remove`, in their original order. */
  function Without(entries: seq<string>, remove: set<string>): (r: seq<string>)
    ensures |r| <= |entries|
  {
    if entries == [] then []
    else
      var last := entries[|entries| - 1];
      Without(entries[..|entries| - 1], remove) + (if last in remove then [] else [last])
  }

  /** A label is kept exactly when it was there and is not to be removed. */
  lemma {:induction false} WithoutMembers(entries: seq<string>, remove: set<string>)
    ensures forall l :: l in Without(entries, remove) <==> l in entries && l !in remove
  {
    if entries != [] {
      var init := entries[..|entries| - 1];
      WithoutMembers(init, remove);
      assert entries == init + [entries[|entries| - 1]];
    }
  }

  lemma {:induction false} WithoutAppend(a: seq<string>, b: seq<string>, remove: set<string>)
    ensures Without(a + b, remove) == Without(a, remove) + Without(b, remove)
  {
    if b == [] {
      assert a + b == a;
    } else {
      var init := b[..|b| - 1];
      WithoutAppend(a, init, remove);
      assert (a + b)[..|a + b| - 1] == a + init;
    }
  }

  /** Entries none of which is to be removed are kept as they are. */
  lemma {:induction false} WithoutKeepsAll(a: seq<string>, remove: set<string>)
    requires forall i :: 0 <= i < |a| ==> a[i] !in remove
    ensures Without(a, remove) == a
  {
    if a != [] {
      WithoutKeepsAll(a[..|a| - 1], remove);
    }
  }

  /** Removing the same labels again changes nothing. */
  lemma WithoutIdempotent(a: seq<string>, remove: set<string>)
    ensures Without(Without(a, remove), remove) == Without(a, remove)
  {
    var r := Without(a, remove);
    WithoutMembers(a, remove);
    forall i | 0 <= i < |r| ensures r[i] !in remove {
      assert r[i] in r;
    }
    WithoutKeepsAll(r, remove);
  }

  /** Removing two label sets one after the other is removing their union. */
  lemma {:induction false} WithoutTwice(a: seq<string>, first: set<string>, second: set<string>)
    ensures Without(Without(a, first), second) == Without(a, first + second)
  {
    if a != [] {
      var init := a[..|a| - 1];
      WithoutTwice(init, first, second);
      var last := a[|a| - 1];
      WithoutAppend(Without(init, first), if last in first then [] else [last], second);
    }
  }

  /** The example of the index-stable removal: [a,b,c,d,e] without {b,d} is [a,c,e] when a,
      c and e are neither b nor d. */
  lemma WithoutExample(a: string, b: string, c: string, d: string, e: string)
    requires a !in {b, d} && c !in {b, d} && e !in {b, d}
    ensures Without([a, b, c, d, e], {b, d}) == [a, c, e]
  {
    var remove := {b, d};
    assert Without([a], remove) == [a] by { assert [a][..0] == []; }
    assert Without([a, b], remove) == [a] by { assert [a, b][..1] == [a]; }
    assert Without([a, b, c], remove) == [a, c] by { assert [a, b, c][..2] == [a, b]; }
    assert Without([a, b, c, d], remove) == [a, c] by { assert [a, b, c, d][..3] == [a, b, c]; }
    assert [a, b, c, d, e][..4] == [a, b, c, d];
  }

  /** `[index for index, a in enumerate(entries) if a.label in remove]`, restricted to the first
      `n` entries: the positions to pop, in increasing order. */
  function MatchingIndices(entries: seq<string>, remove: set<string>, n: nat): (r: seq<nat>)
    requires n <= |entries|
    ensures IndicesOf(entries, remove, n, r)
  {
    if n == 0 then []
    else MatchingIndices(entries, remove, n - 1) + (if entries[n - 1] in remove then [n - 1] else [])
  }

  /** `indices` lists, in increasing order, exactly the positions below `n` whose entry is to be removed. */
  predicate IndicesOf(entries: seq<string>, remove: set<string>, n: nat, indices: seq<nat>)
    requires n <= |entries|
  {
    && (forall j :: 0 <= j < |indices| ==> indices[j] < n && entries[indices[j]] in remove)
    && (forall j, k :: 0 <= j < k < |indices| ==> indices[j] < indices[k])
    && (forall i :: 0 <= i < n && entries[i] in remove ==> i in indices)
  }

  /** Where the still untouched prefix ends once the indices from `k` on have been popped. */
  function Bound(entries: seq<string>, indices: seq<nat>, k: nat): nat
    requires k <= |indices|
  {
    if k < |indices| then indices[k] else |entries|
  }

  /** No entry strictly between two consecutive positions to pop is to be removed. */
  lemma GapBetween(entries: seq<string>, remove: set<string>, indices: seq<nat>, k: nat, j: nat)
    requires IndicesOf(entries, remove, |entries|, indices)
    requires k < |indices| && indices[k] < j < Bound(entries, indices, k + 1)
    ensures entries[j] !in remove
  {
    forall m | 0 <= m < |indices| ensures indices[m] != j {
      if m < k {
        assert indices[m] < indices[k];
      } else if m > k + 1 {
        assert indices[k + 1] < indices[m];
      }
    }
  }

  /** No entry before the first position to pop is to be removed. */
  lemma GapBeforeFirst(entries: seq<string>, remove: set<string>, indices: seq<nat>, j: nat)
    requires IndicesOf(entries, remove, |entries|, indices)
    requires j < Bound(entries, indices, 0) <= |entries|
    ensures entries[j] !in remove
  {
    forall m | 0 <= m < |indices| ensures indices[m] != j {
      if m > 0 {
        assert indices[0] < indices[m];
      }
    }
  }

  /** Filtering from a removed entry up to the next removed one drops it and keeps the gap. */
  lemma WithoutFromHit(entries: seq<string>, remove: set<string>, i: nat, b: nat)
    requires i < b <= |entries| && entries[i] in remove
    requires forall j :: i < j < b ==> entries[j] !in remove
    ensures Without(entries[i..], remove) == entries[i + 1..b] + Without(entries[b..], remove)
  {
    var gap, tail := entries[i + 1..b], entries[b..];
    assert forall j :: 0 <= j < |gap| ==> gap[j] == entries[i + 1 + j];
    calc {
      Without(entries[i..], remove);
      { assert entries[i..] == ([entries[i]] + gap) + tail; }
      Without(([entries[i]] + gap) + tail, remove);
      { WithoutAppend([entries[i]] + gap, tail, remove); }
      Without([entries[i]] + gap, remove) + Without(tail, remove);
      { WithoutAppend([entries[i]], gap, remove); }
      Without([entries[i]], remove) + Without(gap, remove) + Without(tail, remove);
      { assert [entries[i]][..0] == []; WithoutKeepsAll(gap, remove); }
      gap + Without(tail, remove);
    }
  }

  lemma PopSplit(entries: seq<string>, remove: set<string>, i: nat, b: nat)
    requires i < b <= |entries| && entries[i] in remove
    requires forall j :: i < j < b ==> entries[j] !in remove
    ensures var cur := entries[..b] + Without(entries[b..], remove);
            cur[..i] + cur[i + 1..] == entries[..i] + Without(entries[i..], remove)
  {
    WithoutFromHit(entries, remove, i, b);
    var rest := Without(entries[b..], remove);
    var cur := entries[..b] + rest;
    assert cur[..i] == entries[..i];
    assert cur[i + 1..] == entries[i + 1..b] + rest;
  }

  /** One pop of the high-to-low loop: popping position `indices[k]` from the list whose
      positions from `Bound(k + 1)` on are already filtered extends the filtered part down to it. */
  lemma PopStep(entries: seq<string>, remove: set<string>, indices: seq<nat>, k: nat)
    requires IndicesOf(entries, remove, |entries|, indices)
    requires k < |indices|
    ensures indices[k] < Bound(entries, indices, k + 1) <= |entries|
    ensures var i, b := indices[k], Bound(entries, indices, k + 1);
            var cur := entries[..b] + Without(entries[b..], remove);
            cur[..i] + cur[i + 1..] == entries[..i] + Without(entries[i..], remove)
  {
    var i, b := indices[k], Bound(entries, indices, k + 1);
    assert i < b by {
      if k + 1 < |indices| { assert indices[k] < indices[k + 1]; }
    }
    forall j | i < j < b ensures entries[j] !in remove {
      GapBetween(entries, remove, indices, k, j);
    }
    PopSplit(entries, remove, i, b);
  }

  /** When the loop ends, the part before the first popped position is untouched, so the whole
      list is filtered. */
  lemma PopEnd(entries: seq<string>, remove: set<string>, indices: seq<nat>)
    requires IndicesOf(entries, remove, |entries|, indices)
    ensures Bound(entries, indices, 0) <= |entries|
    ensures var b := Bound(entries, indices, 0);
            entries[..b] + Without(entries[b..], remove) == Without(entries, remove)
  {
    var b := Bound(entries, indices, 0);
    var head := entries[..b];
    forall j | 0 <= j < |head| ensures head[j] !in remove {
      GapBeforeFirst(entries, remove, indices, j);
    }
    WithoutKeepsAll(head, remove);
    WithoutAppend(head, entries[b..], remove);
    assert head + entries[b..] == entries;
  }

  /** The body of `_removeLabelClassifications` on a list of entries: collect the positions to
      remove, then pop them from the highest to the lowest. */
  method RemoveEntries(entries: seq<string>, remove: set<string>) returns (result: seq<string>)
    ensures result == Without(entries, remove)
  {
    var indices := MatchingIndices(entries, remove, |entries|);
    result := entries;
    var k := |indices|;
    assert entries[|entries|..] == [];
    assert entries[..|entries|] == entries;
    while k > 0
      invariant 0 <= k <= |indices|
      invariant Bound(entries, indices, k) <= |entries|
      invariant result == entries[..Bound(entries, indices, k)] + Without(entries[Bound(entries, indices, k)..], remove)
    {
      k := k - 1;
      PopStep(entries, remove, indices, k);
      var index := indices[k];
      result := result[..index] + result[index + 1..];
    }
    PopEnd(entries, remove, indices);
  }

  /** What `_removeLabelClassifications` leaves in a field: nothing happens to a None field. */
  function RemovedFrom(f: Field, remove: set<string>): (g: Field)
  {
    match f
    case Null => Null
    case Classifications(entries) => Classifications(Without(entries, remove))
  }

  /** Removal deletes exactly the entries whose label is to be removed, keeps the rest in order,
      and leaves a None field alone. */
  lemma RemovedFromSpec(f: Field, remove: set<string>)
    ensures f.Null? <==> RemovedFrom(f, remove).Null?
    ensures f.Classifications? ==>
            forall l :: l in RemovedFrom(f, remove).labels <==> l in f.labels && l !in remove
    ensures f.Classifications? && (forall i :: 0 <= i < |f.labels| ==> f.labels[i] !in remove) ==>
            RemovedFrom(f, remove) == f
  {
    if f.Classifications? {
      WithoutMembers(f.labels, remove);
      if forall i :: 0 <= i < |f.labels| ==> f.labels[i] !in remove {
        WithoutKeepsAll(f.labels, remove);
      }
    }
  }

  /** `_removeLabelClassifications(sample, group, labels_to_remove)` on the group's field. */
  method RemoveLabelClassifications(f: Field, remove: set<string>) returns (g: Field)
    ensures g == RemovedFrom(f, remove)
  {
    if f.Null? {
      return Null;
    }
    var kept := RemoveEntries(f.labels, remove);
    return Classifications(kept);
  }

  // ----- single-sample reconcile ----------------------------------------------------------

  /** `[a for a in desired if a not in existing]`, in request order. */
  function Missing(desired: seq<string>, existing: set<string>): seq<string>
  {
    if desired == [] then []
    else
      var last := desired[|desired| - 1];
      Missing(desired[..|desired| - 1], existing) + (if last in existing then [] else [last])
  }

  /** The labels to add are the desired ones not yet present. */
  lemma {:induction false} MissingMembers(desired: seq<string>, existing: set<string>)
    ensures forall l :: l in Missing(desired, existing) <==> l in desired && l !in existing
  {
    if desired != [] {
      var init := desired[..|desired| - 1];
      MissingMembers(init, existing);
      assert desired == init + [desired[|desired| - 1]];
    }
  }

  /** The reconcile of one group's field with the desired labels: append the desired labels not
      yet present, then remove the present labels not desired. On a None field the append
      raises, unless there is nothing to add (None models the exception). */
  function Reconciled(f: Field, desired: seq<string>): Option<Field>
  {
    var existing := GetLabels(f);
    var toAdd := Missing(desired, existing);
    var toRemove := existing - ToSet(desired);
    match f
    case Null => if toAdd == [] then Some(Null) else None
    case Classifications(entries) => Some(Classifications(Without(entries + toAdd, toRemove)))
  }

  /** A reconcile keeps the entries whose label is desired, in their order, and appends the
      desired labels that were missing, in request order. */
  lemma ReconcileKeepsThenAppends(entries: seq<string>, desired: seq<string>)
    ensures Reconciled(Classifications(entries), desired) ==
            Some(Classifications(Without(entries, ToSet(entries) - ToSet(desired)) + Missing(desired, ToSet(entries))))
  {
    var existing := ToSet(entries);
    var toAdd := Missing(desired, existing);
    var toRemove := existing - ToSet(desired);
    WithoutAppend(entries, toAdd, toRemove);
    MissingMembers(desired, existing);
    forall i | 0 <= i < |toAdd| ensures toAdd[i] !in toRemove {
      assert toAdd[i] in toAdd;
    }
    WithoutKeepsAll(toAdd, toRemove);
  }

  /** After a reconcile the field's labels are exactly the desired ones. */
  lemma ReconcileReachesDesired(entries: seq<string>, desired: seq<string>)
    ensures Reconciled(Classifications(entries), desired).Some?
    ensures var r := Reconciled(Classifications(entries), desired).value;
            r.Classifications? && forall l :: l in r.labels <==> l in desired
  {
    ReconcileKeepsThenAppends(entries, desired);
    var existing := ToSet(entries);
    WithoutMembers(entries, existing - ToSet(desired));
    MissingMembers(desired, existing);
  }

  /** From a field with no labels every desired label is missing. */
  lemma {:induction false} MissingFromNothing(desired: seq<string>)
    ensures Missing(desired, {}) == desired
  {
    if desired != [] {
      MissingFromNothing(desired[..|desired| - 1]);
      assert desired == desired[..|desired| - 1] + [desired[|desired| - 1]];
    }
  }

  /** Nothing is missing when every desired label is present. */
  lemma {:induction false} MissingNone(desired: seq<string>, existing: set<string>)
    requires forall i :: 0 <= i < |desired| ==> desired[i] in existing
    ensures Missing(desired, existing) == []
  {
    if desired != [] {
      MissingNone(desired[..|desired| - 1], existing);
    }
  }

  /** Reconciling a field with the labels it already has changes nothing. */
  lemma ReconcileUnchanged(f: Field, desired: seq<string>)
    requires f.Classifications? ==> ToSet(desired) == ToSet(f.labels)
    requires f.Null? ==> desired == []
    ensures Reconciled(f, desired) == Some(f)
  {
    if f.Classifications? {
      var existing := ToSet(f.labels);
      assert forall i :: 0 <= i < |desired| ==> desired[i] in existing by {
        forall i | 0 <= i < |desired| ensures desired[i] in existing {
          assert desired[i] in ToSet(desired);
        }
      }
      MissingNone(desired, existing);
      assert existing - ToSet(desired) == {};
      WithoutKeepsAll(f.labels + [], {});
      assert f.labels + [] == f.labels;
    }
  }

  /** The per-group body of `ManageModalLabel.execute`. */
  method ReconcileField(f: Field, desired: seq<string>) returns (r: Option<Field>)
    ensures r == Reconciled(f, desired)
  {
    var existing := GetLabels(f);
    var toAdd := Missing(desired, existing);
    var toRemove := existing - ToSet(desired);
    if f.Null? {
      if toAdd != [] {
        return None;
      }
      return Some(Null);
    }
    var entries := f.labels;
    for i := 0 to |toAdd|
      invariant entries == f.labels + toAdd[..i]
    {
      entries := entries + [toAdd[i]];
    }
    assert toAdd[..|toAdd|] == toAdd;
    var g := RemoveLabelClassifications(Classifications(entries), toRemove);
    return Some(g);
  }

  // ----- bulk add -----------------------------------------------------------------------

  /** The entries after `for la in request: if not _label_in_fields(entries, la): append(la)`. */
  function AddMissing(entries: seq<string>, request: seq<string>): (r: seq<string>)
    ensures |entries| <= |r| && r[..|entries|] == entries
    ensures forall l :: l in r <==> l in entries || l in request
    ensures forall i :: |entries| <= i < |r| ==> r[i] !in entries
    ensures NoDuplicates(r[|entries|..])
  {
    if request == [] then entries
    else
      var prev := AddMissing(entries, request[..|request| - 1]);
      var la := request[|request| - 1];
      assert forall l :: l in request <==> l in request[..|request| - 1] || l == la;
      if la in prev then prev
      else
        assert prev[|entries|..] + [la] == (prev + [la])[|entries|..];
        prev + [la]
  }

  /** Adding labels that are all present changes nothing. */
  lemma {:induction false} AddMissingAllPresent(entries: seq<string>, request: seq<string>)
    requires forall i :: 0 <= i < |request| ==> request[i] in entries
    ensures AddMissing(entries, request) == entries
  {
    if request != [] {
      AddMissingAllPresent(entries, request[..|request| - 1]);
    }
  }

  /** Re-adding the same labels is a no-op. */
  lemma AddMissingIdempotent(entries: seq<string>, request: seq<string>)
    ensures AddMissing(AddMissing(entries, request), request) == AddMissing(entries, request)
  {
    var r := AddMissing(entries, request);
    forall i | 0 <= i < |request| ensures request[i] in r {
      assert request[i] in request;
    }
    AddMissingAllPresent(r, request);
  }

  /** Bulk add never creates a duplicate label: entries without duplicates stay without. */
  lemma AddMissingNoDuplicates(entries: seq<string>, request: seq<string>)
    requires NoDuplicates(entries)
    ensures NoDuplicates(AddMissing(entries, request))
  {
    var r := AddMissing(entries, request);
    var n := |entries|;
    forall i, j | 0 <= i < j < |r| ensures r[i] != r[j] {
      if j < n {
        assert r[i] == r[..n][i] && r[j] == r[..n][j];
      } else if i < n {
        assert r[i] == r[..n][i];
        assert r[i] in entries;
      } else {
        assert r[i] == r[n..][i - n] && r[j] == r[n..][j - n];
      }
    }
  }

  /** The bulk add on one field: a None field raises as soon as there is a label to add. */
  function Added(f: Field, request: seq<string>): Option<Field>
  {
    match f
    case Null => if request == [] then Some(Null) else None
    case Classifications(entries) => Some(Classifications(AddMissing(entries, request)))
  }

  /** The per-sample body of `AddGridLabel.execute`. */
  method BulkAddField(f: Field, request: seq<string>) returns (r: Option<Field>)
    ensures r == Added(f, request)
  {
    var current := f;
    for i := 0 to |request|
      invariant f.Null? ==> i == 0 && current == Null
      invariant f.Classifications? ==> current == Classifications(AddMissing(f.labels, request[..i]))
    {
      if current.Null? {
        return None;
      }
      var present := LabelInFields(current.labels, request[i]);
      assert request[..i + 1][..i] == request[..i];
      if !present {
        current := Classifications(current.labels + [request[i]]);
      }
    }
    assert request[..|request|] == request;
    return Some(current);
  }

  // ----- edits over a selection -----------------------------------------------------------

  /** A bulk edit of one group: add these labels, or remove them. */
  datatype Edit = Add(request: seq<string>) | Remove(request: seq<string>)

  datatype Kind = AddKind | RemoveKind

  function MakeEdit(kind: Kind, request: seq<string>): Edit
  {
    if kind == AddKind then Add(request) else Remove(request)
  }

  function EditField(f: Field, edit: Edit): Option<Field>
  {
    match edit
    case Add(request) => Added(f, request)
    case Remove(request) => Some(RemovedFrom(f, ToSet(request)))
  }

  /** A successful bulk edit is idempotent: applying it to its own result changes nothing. */
  lemma EditFieldIdempotent(f: Field, edit: Edit)
    requires EditField(f, edit).Some?
    ensures EditField(EditField(f, edit).value, edit) == EditField(f, edit)
  {
    match edit
    case Add(request) =>
      if f.Classifications? { AddMissingIdempotent(f.labels, request); }
    case Remove(request) =>
      if f.Classifications? { WithoutIdempotent(f.labels, ToSet(request)); }
  }

  function EditSample(s: Sample, group: string, edit: Edit): Option<Sample>
  {
    match EditField(FieldOf(s, group), edit)
    case None => None
    case Some(g) => Some(WithField(s, group, g))
  }

  predicate ValidIds(samples: seq<Sample>, ids: seq<nat>)
  {
    forall j :: 0 <= j < |ids| ==> ids[j] < |samples|
  }

  /** `for sampleId in ids: edit and save ctx.dataset[sampleId]`. */
  function EditAt(samples: seq<Sample>, ids: seq<nat>, group: string, edit: Edit): (o: Outcome)
    requires ValidIds(samples, ids)
    ensures |o.samples| == |samples|
  {
    if ids == [] then Outcome(samples, None)
    else
      var prev := EditAt(samples, ids[..|ids| - 1], group, edit);
      var id := ids[|ids| - 1];
      if !prev.Ok() then prev
      else match EditSample(prev.samples[id], group, edit)
        case None => Outcome(prev.samples, Some(NotClassifications(group)))
        case Some(t) => Outcome(prev.samples[id := t], None)
  }

  /** A bulk edit over distinct sample ids succeeds exactly when it succeeds on every selected
      sample, and then it changes the selected samples' group field only. */
  lemma {:induction false} EditAtResult(samples: seq<Sample>, ids: seq<nat>, group: string, edit: Edit)
    requires ValidIds(samples, ids) && NoDuplicates(ids)
    ensures EditAt(samples, ids, group, edit).Ok() <==>
            forall j :: 0 <= j < |ids| ==> EditField(FieldOf(samples[ids[j]], group), edit).Some?
    ensures EditAt(samples, ids, group, edit).Ok() ==>
            forall i :: 0 <= i < |samples| ==>
              EditAt(samples, ids, group, edit).samples[i] ==
                (if i in ids then EditSample(samples[i], group, edit).value else samples[i])
  {
    if ids != [] {
      var init := ids[..|ids| - 1];
      var id := ids[|ids| - 1];
      assert ValidIds(samples, init) && NoDuplicates(init);
      EditAtResult(samples, init, group, edit);
      assert id !in init;
      assert forall i :: i in ids <==> i in init || i == id;
      assert forall j :: 0 <= j < |init| ==> init[j] == ids[j];
    }
  }

  /** The request for a group: `ctx.params.get(f"{group}_labels")`, absent read as empty. */
  function Request(params: map<string, seq<string>>, group: string): seq<string>
  {
    if group in params then params[group] else []
  }

  /** `for group in classes: if requested: edit every id`. */
  function EditGroups(samples: seq<Sample>, groups: seq<string>, ids: seq<nat>, params: map<string, seq<string>>, kind: Kind): (o: Outcome)
    requires ValidIds(samples, ids)
    ensures |o.samples| == |samples|
  {
    if groups == [] then Outcome(samples, None)
    else
      var prev := EditGroups(samples, groups[..|groups| - 1], ids, params, kind);
      var group := groups[|groups| - 1];
      if !prev.Ok() || Request(params, group) == [] then prev
      else EditAt(prev.samples, ids, group, MakeEdit(kind, Request(params, group)))
  }

  /** The field a successful bulk edit leaves. */
  function Edited(f: Field, edit: Edit): Field
  {
    match EditField(f, edit)
    case Some(g) => g
    case None => f
  }

  /** What a successful edit over several groups gives a sample's field. */
  function ExpectedField(s: Sample, i: nat, group: string, groups: seq<string>, ids: seq<nat>, params: map<string, seq<string>>, kind: Kind): Field
  {
    if group in groups && i in ids && Request(params, group) != []
    then Edited(FieldOf(s, group), MakeEdit(kind, Request(params, group)))
    else FieldOf(s, group)
  }

  /** What a successful edit over several groups gives a sample: every requested group's field
      edited when the sample is selected, and nothing else changed. */
  ghost predicate EditedAsExpected(out: Sample, s: Sample, i: nat, groups: seq<string>, ids: seq<nat>, params: map<string, seq<string>>, kind: Kind)
  {
    SameSample(out, s) && forall group :: FieldOf(out, group) == ExpectedField(s, i, group, groups, ids, params, kind)
  }

  /** One more requested group keeps a sample as expected. */
  lemma EditGroupsStep(s: Sample, p: Sample, o: Sample, i: nat, init: seq<string>, g: string, ids: seq<nat>, params: map<string, seq<string>>, kind: Kind)
    requires g !in init && Request(params, g) != []
    requires EditedAsExpected(p, s, i, init, ids, params, kind)
    requires var edit := MakeEdit(kind, Request(params, g));
             if i in ids then EditField(FieldOf(p, g), edit).Some? && o == EditSample(p, g, edit).value else o == p
    ensures EditedAsExpected(o, s, i, init + [g], ids, params, kind)
  {
    var groups := init + [g];
    assert forall x :: x in groups <==> x in init || x == g;
    forall group ensures FieldOf(o, group) == ExpectedField(s, i, group, groups, ids, params, kind) {
      assert FieldOf(p, group) == ExpectedField(s, i, group, init, ids, params, kind);
    }
  }

  /** After a successful bulk edit every selected sample's requested groups hold the edited
      field, and nothing else of any sample changed. */
  lemma {:induction false} EditGroupsResult(samples: seq<Sample>, groups: seq<string>, ids: seq<nat>, params: map<string, seq<string>>, kind: Kind)
    requires ValidIds(samples, ids) && NoDuplicates(ids) && NoDuplicates(groups)
    requires EditGroups(samples, groups, ids, params, kind).Ok()
    ensures var out := EditGroups(samples, groups, ids, params, kind).samples;
            forall i :: 0 <= i < |samples| ==> EditedAsExpected(out[i], samples[i], i, groups, ids, params, kind)
  {
    if groups != [] {
      var init := groups[..|groups| - 1];
      var g := groups[|groups| - 1];
      assert groups == init + [g];
      assert NoDuplicates(init);
      var prev := EditGroups(samples, init, ids, params, kind);
      EditGroupsResult(samples, init, ids, params, kind);
      assert g !in init;
      var out := EditGroups(samples, groups, ids, params, kind).samples;
      if Request(params, g) != [] {
        var edit := MakeEdit(kind, Request(params, g));
        EditAtResult(prev.samples, ids, g, edit);
        assert out == EditAt(prev.samples, ids, g, edit).samples;
        forall i | 0 <= i < |samples|
          ensures EditedAsExpected(out[i], samples[i], i, groups, ids, params, kind)
        {
          if i in ids {
            var j :| 0 <= j < |ids| && ids[j] == i;
          }
          EditGroupsStep(samples[i], prev.samples[i], out[i], i, init, g, ids, params, kind);
        }
      } else {
        forall i | 0 <= i < |samples|
          ensures EditedAsExpected(out[i], samples[i], i, groups, ids, params, kind)
        {
          assert forall x :: x in groups <==> x in init || x == g;
          assert EditedAsExpected(out[i], samples[i], i, init, ids, params, kind);
        }
      }
    }
  }

  /** Bulk add over a selection fails exactly when a selected sample's requested group field
      is None. */
  lemma AddFieldFails(f: Field, request: seq<string>)
    requires request != []
    ensures EditField(f, Add(request)).None? <==> f.Null?
  {
  }

  /** Bulk remove never fails. */
  lemma RemoveNeverFails(samples: seq<Sample>, groups: seq<string>, ids: seq<nat>, params: map<string, seq<string>>)
    requires ValidIds(samples, ids)
    ensures EditGroups(samples, groups, ids, params, RemoveKind).Ok()
  {
    if groups != [] {
      RemoveNeverFails(samples, groups[..|groups| - 1], ids, params);
      var prev := EditGroups(samples, groups[..|groups| - 1], ids, params, RemoveKind);
      RemoveAtNeverFails(prev.samples, ids, groups[|groups| - 1], Remove(Request(params, groups[|groups| - 1])));
    }
  }

  lemma RemoveAtNeverFails(samples: seq<Sample>, ids: seq<nat>, group: string, edit: Edit)
    requires ValidIds(samples, ids) && edit.Remove?
    ensures EditAt(samples, ids, group, edit).Ok()
  {
    if ids != [] {
      RemoveAtNeverFails(samples, ids[..|ids| - 1], group, edit);
    }
  }

  // ----- the operators ---------------------------------------------------------------------

  /** The edit loop over selected samples for one group. */
  method EditSelection(ds: Dataset, ids: seq<nat>, group: string, edit: Edit) returns (ok: bool)
    requires ValidIds(ds.samples, ids)
    modifies ds
    ensures ds.classes == old(ds.classes)
    ensures ds.samples == EditAt(old(ds.samples), ids, group, edit).samples
    ensures ok == EditAt(old(ds.samples), ids, group, edit).Ok()
  {
    ok := true;
    var j := 0;
    while j < |ids| && ok
      invariant 0 <= j <= |ids|
      invariant |ds.samples| == |old(ds.samples)|
      invariant ds.classes == old(ds.classes)
      invariant EditAt(old(ds.samples), ids[..j], group, edit).samples == ds.samples
      invariant EditAt(old(ds.samples), ids[..j], group, edit).Ok() == ok
      invariant !ok ==> EditAt(old(ds.samples), ids, group, edit) == EditAt(old(ds.samples), ids[..j], group, edit)
    {
      var id := ids[j];
      var sample := ds.samples[id];
      var f := FieldOf(sample, group);
      var g: Option<Field>;
      if edit.Add? {
        g := BulkAddField(f, edit.request);
      } else {
        var h := RemoveLabelClassifications(f, ToSet(edit.request));
        g := Some(h);
      }
      assert ids[..j + 1][..j] == ids[..j];
      if g.None? {
        ok := false;
        EditAtFailedPrefix(old(ds.samples), ids, j + 1, group, edit);
      } else {
        ds.samples := ds.samples[id := WithField(sample, group, g.value)];
      }
      j := j + 1;
    }
    if ok {
      assert ids[..j] == ids;
    }
  }

  lemma {:induction false} EditAtFailedPrefix(samples: seq<Sample>, ids: seq<nat>, n: nat, group: string, edit: Edit)
    requires ValidIds(samples, ids) && n <= |ids|
    requires !EditAt(samples, ids[..n], group, edit).Ok()
    ensures EditAt(samples, ids, group, edit) == EditAt(samples, ids[..n], group, edit)
    decreases |ids| - n
  {
    if n < |ids| {
      assert ids[..n + 1][..n] == ids[..n];
      EditAtFailedPrefix(samples, ids, n + 1, group, edit);
    } else {
      assert ids[..n] == ids;
    }
  }

  lemma {:induction false} EditGroupsFailedPrefix(samples: seq<Sample>, groups: seq<string>, n: nat, ids: seq<nat>, params: map<string, seq<string>>, kind: Kind)
    requires ValidIds(samples, ids) && n <= |groups|
    requires !EditGroups(samples, groups[..n], ids, params, kind).Ok()
    ensures EditGroups(samples, groups, ids, params, kind) == EditGroups(samples, groups[..n], ids, params, kind)
    decreases |groups| - n
  {
    if n < |groups| {
      assert groups[..n + 1][..n] == groups[..n];
      EditGroupsFailedPrefix(samples, groups, n + 1, ids, params, kind);
    } else {
      assert groups[..n] == groups;
    }
  }

  /** One more group: a successful edit so far goes on with that group's request, if any. */
  lemma EditGroupsNext(samples: seq<Sample>, groups: seq<string>, i: nat, ids: seq<nat>, params: map<string, seq<string>>, kind: Kind)
    requires ValidIds(samples, ids) && i < |groups| && EditGroups(samples, groups[..i], ids, params, kind).Ok()
    ensures var prev := EditGroups(samples, groups[..i], ids, params, kind);
            EditGroups(samples, groups[..i + 1], ids, params, kind) ==
              if Request(params, groups[i]) == [] then prev
              else EditAt(prev.samples, ids, groups[i], MakeEdit(kind, Request(params, groups[i])))
  {
    assert groups[..i + 1][..i] == groups[..i];
  }

  /** The group loop shared by `AddGridLabel.execute` and `RemoveGridLabel.execute`: groups
      without a request are skipped. */
  method EditGroupsOfSelection(ds: Dataset, groups: seq<string>, ids: seq<nat>, params: map<string, seq<string>>, kind: Kind) returns (ok: bool)
    requires ValidIds(ds.samples, ids)
    modifies ds
    ensures ds.classes == old(ds.classes)
    ensures ds.samples == EditGroups(old(ds.samples), groups, ids, params, kind).samples
    ensures ok == EditGroups(old(ds.samples), groups, ids, params, kind).Ok()
  {
    ghost var start := ds.samples;
    ok := true;
    var i := 0;
    while i < |groups| && ok
      invariant 0 <= i <= |groups|
      invariant |ds.samples| == |start|
      invariant ds.classes == old(ds.classes)
      invariant EditGroups(start, groups[..i], ids, params, kind).samples == ds.samples
      invariant EditGroups(start, groups[..i], ids, params, kind).Ok() == ok
      invariant !ok ==> EditGroups(start, groups, ids, params, kind) == EditGroups(start, groups[..i], ids, params, kind)
    {
      ok := EditOneGroup(ds, groups, i, ids, params, kind, start);
      i := i + 1;
    }
    if ok {
      assert groups[..i] == groups;
    }
  }

  /** One pass of the group loop of `AddGridLabel.execute` and `RemoveGridLabel.execute`: the
      samples move on by one group, and a failure there is the outcome of the whole loop. */
  method EditOneGroup(ds: Dataset, groups: seq<string>, i: nat, ids: seq<nat>, params: map<string, seq<string>>, kind: Kind,
                       ghost start: seq<Sample>) returns (ok: bool)
    requires i < |groups| && ValidIds(start, ids) && |ds.samples| == |start|
    requires EditGroups(start, groups[..i], ids, params, kind).Ok()
    requires ds.samples == EditGroups(start, groups[..i], ids, params, kind).samples
    modifies ds
    ensures ds.classes == old(ds.classes) && |ds.samples| == |start|
    ensures ds.samples == EditGroups(start, groups[..i + 1], ids, params, kind).samples
    ensures ok == EditGroups(start, groups[..i + 1], ids, params, kind).Ok()
    ensures !ok ==> EditGroups(start, groups, ids, params, kind) == EditGroups(start, groups[..i + 1], ids, params, kind)
  {
    var request := Request(params, groups[i]);
    EditGroupsNext(start, groups, i, ids, params, kind);
    ok := true;
    if request != [] {
      ok := EditSelection(ds, ids, groups[i], MakeEdit(kind, request));
      if !ok {
        EditGroupsFailedPrefix(start, groups, i + 1, ids, params, kind);
      }
    }
  }

  /** The group names of the registry, each once: the iteration of `ctx.dataset.classes`. */
  predicate GroupsOf(ds: Dataset, groups: seq<string>)
    reads ds
  {
    NoDuplicates(groups) && (forall g :: g in groups ==> g in ds.classes) && (forall g :: g in ds.classes ==> g in groups)
  }

  /** `AddGridLabel.execute`: adds each group's requested labels to every selected sample. */
  method AddGridLabel(ds: Dataset, groups: seq<string>, selected: seq<nat>, params: map<string, seq<string>>) returns (ok: bool)
    requires GroupsOf(ds, groups) && ValidIds(ds.samples, selected)
    modifies ds
    ensures ds.classes == old(ds.classes)
    ensures ds.samples == EditGroups(old(ds.samples), groups, selected, params, AddKind).samples
    ensures ok == EditGroups(old(ds.samples), groups, selected, params, AddKind).Ok()
  {
    ok := EditGroupsOfSelection(ds, groups, selected, params, AddKind);
  }

  /** `RemoveGridLabel.execute`: removes each group's requested labels from every selected sample. */
  method RemoveGridLabel(ds: Dataset, groups: seq<string>, selected: seq<nat>, params: map<string, seq<string>>)
    requires GroupsOf(ds, groups) && ValidIds(ds.samples, selected)
    modifies ds
    ensures ds.classes == old(ds.classes)
    ensures ds.samples == EditGroups(old(ds.samples), groups, selected, params, RemoveKind).samples
  {
    var ok := EditGroupsOfSelection(ds, groups, selected, params, RemoveKind);
  }

  /** The reconcile of one sample over all groups; None when a group's append raises, in which
      case the sample is not saved. */
  function ManagedSample(s: Sample, groups: seq<string>, params: map<string, seq<string>>): Option<Sample>
  {
    if groups == [] then Some(s)
    else
      match ManagedSample(s, groups[..|groups| - 1], params)
      case None => None
      case Some(t) =>
        var group := groups[|groups| - 1];
        match Reconciled(FieldOf(t, group), Request(params, group))
        case None => None
        case Some(f) => Some(WithField(t, group, f))
  }

  /** A successful reconcile gives every group's field the reconciled value of the old field,
      and changes nothing else. */
  lemma {:induction false} ManagedSampleResult(s: Sample, groups: seq<string>, params: map<string, seq<string>>)
    requires NoDuplicates(groups) && ManagedSample(s, groups, params).Some?
    ensures SameSample(ManagedSample(s, groups, params).value, s)
    ensures forall group :: group in groups ==>
              Reconciled(FieldOf(s, group), Request(params, group)) == Some(FieldOf(ManagedSample(s, groups, params).value, group))
    ensures forall group :: group !in groups ==> FieldOf(ManagedSample(s, groups, params).value, group) == FieldOf(s, group)
  {
    if groups != [] {
      var init := groups[..|groups| - 1];
      assert NoDuplicates(init);
      ManagedSampleResult(s, init, params);
      assert groups[|groups| - 1] !in init;
      assert forall x :: x in groups <==> x in init || x == groups[|groups| - 1];
    }
  }

  /** After a successful modal edit every group of the sample carries exactly the labels the
      request asks for: a Classifications field holds the desired labels, and a None field
      stays None, which only happens when nothing was asked for it. */
  lemma ModalEditMatchesRequest(s: Sample, groups: seq<string>, params: map<string, seq<string>>, group: string)
    requires NoDuplicates(groups) && ManagedSample(s, groups, params).Some? && group in groups
    ensures var f := FieldOf(ManagedSample(s, groups, params).value, group);
            (f.Null? ==> FieldOf(s, group).Null? && Request(params, group) == []) &&
            (f.Classifications? ==> forall l :: l in f.labels <==> l in Request(params, group))
  {
    ManagedSampleResult(s, groups, params);
    var old_ := FieldOf(s, group);
    if old_.Classifications? {
      ReconcileReachesDesired(old_.labels, Request(params, group));
    } else {
      MissingFromNothing(Request(params, group));
    }
  }

  /** One more group of the reconcile loop. */
  lemma ManagedSampleStep(s: Sample, groups: seq<string>, params: map<string, seq<string>>, i: nat, t: Sample, f: Option<Field>)
    requires i < |groups| && ManagedSample(s, groups[..i], params) == Some(t)
    requires f == Reconciled(FieldOf(t, groups[i]), Request(params, groups[i]))
    ensures ManagedSample(s, groups[..i + 1], params) == if f.None? then None else Some(WithField(t, groups[i], f.value))
  {
    assert groups[..i + 1][..i] == groups[..i];
  }

  /** `ManageModalLabel.execute` on the current sample. */
  method ManageModalLabel(ds: Dataset, current: nat, groups: seq<string>, params: map<string, seq<string>>) returns (ok: bool)
    requires GroupsOf(ds, groups) && current < |ds.samples|
    modifies ds
    ensures ds.classes == old(ds.classes)
    ensures ok == ManagedSample(old(ds.samples)[current], groups, params).Some?
    ensures ds.samples == if ok then old(ds.samples)[current := ManagedSample(old(ds.samples)[current], groups, params).value]
                          else old(ds.samples)
  {
    var start := ds.samples[current];
    var sample := start;
    var i := 0;
    while i < |groups|
      invariant 0 <= i <= |groups|
      invariant ds.samples == old(ds.samples) && ds.classes == old(ds.classes)
      invariant ManagedSample(start, groups[..i], params) == Some(sample)
    {
      var group := groups[i];
      var f := ReconcileField(FieldOf(sample, group), Request(params, group));
      ManagedSampleStep(start, groups, params, i, sample, f);
      if f.None? {
        ManagedSampleFailedPrefix(start, groups, i + 1, params);
        return false;
      }
      sample := WithField(sample, group, f.value);
      i := i + 1;
    }
    assert groups[..i] == groups;
    ds.samples := ds.samples[current := sample];
    return true;
  }

  lemma {:induction false} ManagedSampleFailedPrefix(s: Sample, groups: seq<string>, n: nat, params: map<string, seq<string>>)
    requires n <= |groups| && ManagedSample(s, groups[..n], params).None?
    ensures ManagedSample(s, groups, params).None?
    decreases |groups| - n
  {
    if n < |groups| {
      assert groups[..n + 1][..n] == groups[..n];
      ManagedSampleFailedPrefix(s, groups, n + 1, params);
    } else {
      assert groups[..n] == groups;
    }
  }

  /** `CreateGroundTruthLabel.execute`: appends the label to the group's class list, with no
      duplicate check; an empty label or group does nothing; an unknown group raises. */
  method CreateGroundTruthLabel(ds: Dataset, group: string, name: string) returns (ok: bool)
    modifies ds
    ensures ds.samples == old(ds.samples)
    ensures ok <==> name == "" || group == "" || group in old(ds.classes)
    ensures ds.classes == if name != "" && group != "" && group in old(ds.classes)
                          then old(ds.classes)[group := old(ds.classes)[group] + [name]]
                          else old(ds.classes)
  {
    if name == "" || group == "" {
      return true;
    }
    if group !in ds.classes {
      return false;
    }
    ds.classes := ds.classes[group := ds.classes[group] + [name]];
    return true;
  }

  // ----- delete cascade ---------------------------------------------------------------------

  /** `r` is `s` without its entry at `i`, the first occurrence of `x`. */
  ghost predicate RemovedAt(s: seq<string>, x: string, r: seq<string>, i: int)
  {
    0 <= i < |s| && s[i] == x && x !in s[..i] && r == s[..i] + s[i + 1..]
  }

  /** `lst.remove(x)`: drops the first occurrence of `x`. */
  function RemoveFirst(s: seq<string>, x: string): (r: seq<string>)
    requires x in s
    ensures |r| == |s| - 1
    ensures exists i :: RemovedAt(s, x, r, i)
  {
    if s[0] == x then
      assert RemovedAt(s, x, s[1..], 0) by { assert s[..0] + s[1..] == s[1..]; }
      s[1..]
    else
      var t := RemoveFirst(s[1..], x);
      RemoveFirstShift(s, x, t);
      [s[0]] + t
  }

  /** Putting back a head that differs from `x` moves the removed position one step right. */
  lemma RemoveFirstShift(s: seq<string>, x: string, t: seq<string>)
    requires |s| > 0 && s[0] != x
    requires exists j :: RemovedAt(s[1..], x, t, j)
    ensures exists i :: RemovedAt(s, x, [s[0]] + t, i)
  {
    var u := s[1..];
    var j :| RemovedAt(u, x, t, j);
    var i := j + 1;
    assert s[..i] == [s[0]] + u[..j];
    assert s[i + 1..] == u[j + 1..];
    assert RemovedAt(s, x, [s[0]] + t, i);
  }

  /** The registry update of `DeleteGroundTruthLabel.execute` as written:
      `for label in request: if label in classes: classes.remove(label)`. */
  function RegistryDeleteAsWritten(classes: seq<string>, request: seq<string>): seq<string>
  {
    if request == [] then classes
    else
      var prev := RegistryDeleteAsWritten(classes, request[..|request| - 1]);
      var name := request[|request| - 1];
      if name in prev then RemoveFirst(prev, name) else prev
  }

  /** A class created twice (create has no duplicate check) survives its deletion in the
      registry as written, although every sample lost it. */
  lemma RegistryDeleteLeavesDuplicate()
    ensures RegistryDeleteAsWritten(["cat", "cat"], ["cat"]) == ["cat"]
    ensures "cat" in RegistryDeleteAsWritten(["cat", "cat"], ["cat"])
  {
    var r := ["cat"];
    assert ["cat", "cat"][1..] == r;
    assert ["cat"][..0] == [];
  }

  /** On a class list without duplicates, `list.remove(x)` removes every `x`. */
  lemma {:induction false} RemoveFirstWithout(s: seq<string>, x: string)
    requires x in s && NoDuplicates(s)
    ensures RemoveFirst(s, x) == Without(s, {x})
  {
    var tail := s[1..];
    assert s == [s[0]] + tail;
    WithoutAppend([s[0]], tail, {x});
    WithoutSingle(s[0], {x});
    if s[0] == x {
      forall i | 0 <= i < |tail| ensures tail[i] !in {x} {
        assert tail[i] == s[i + 1];
      }
      WithoutKeepsAll(tail, {x});
      assert Without(s, {x}) == tail;
    } else {
      assert NoDuplicates(tail) by {
        forall i, j | 0 <= i < j < |tail| ensures tail[i] != tail[j] {
          assert tail[i] == s[i + 1] && tail[j] == s[j + 1];
        }
      }
      RemoveFirstWithout(tail, x);
      assert RemoveFirst(s, x) == [s[0]] + RemoveFirst(tail, x);
    }
  }

  lemma WithoutSingle(y: string, remove: set<string>)
    ensures Without([y], remove) == if y in remove then [] else [y]
  {
    assert [y][..0] == [];
  }

  /** Removing labels from a list without duplicates leaves a list without duplicates. */
  lemma {:induction false} WithoutNoDuplicates(s: seq<string>, remove: set<string>)
    requires NoDuplicates(s)
    ensures NoDuplicates(Without(s, remove))
  {
    if s != [] {
      var init := s[..|s| - 1];
      var last := s[|s| - 1];
      assert NoDuplicates(init);
      WithoutNoDuplicates(init, remove);
      WithoutMembers(init, remove);
      var w := Without(init, remove);
      assert last !in init by {
        forall i | 0 <= i < |init| ensures init[i] != last {
          assert init[i] == s[i];
        }
      }
      forall i | 0 <= i < |w| ensures w[i] != last {
        assert w[i] in w;
      }
    }
  }

  /** Where the class list has no duplicates, the registry delete as written and the corrected
      purge agree: the bug needs a label created twice. */
  lemma {:induction false} RegistryDeleteAgrees(classes: seq<string>, request: seq<string>)
    requires NoDuplicates(classes)
    ensures RegistryDeleteAsWritten(classes, request) == Without(classes, ToSet(request))
  {
    if request == [] {
      assert ToSet(request) == {};
      WithoutKeepsAll(classes, {});
    } else {
      var i := |request| - 1;
      var prefix := request[..i];
      RegistryDeleteAgrees(classes, prefix);
      var prev := RegistryDeleteAsWritten(classes, prefix);
      var name := request[i];
      WithoutNoDuplicates(classes, ToSet(prefix));
      if name in prev {
        RemoveFirstWithout(prev, name);
      } else {
        WithoutKeepsAll(prev, {name});
      }
      PurgeNext(classes, request, i, prev, Without(prev, {name}));
      assert request[..i + 1] == request;
    }
  }

  /** Purging one more requested name from the registry entries purged so far. */
  lemma PurgeNext(classes: seq<string>, request: seq<string>, i: nat, before: seq<string>, after: seq<string>)
    requires i < |request| && before == Without(classes, ToSet(request[..i]))
    requires after == Without(before, {request[i]})
    ensures after == Without(classes, ToSet(request[..i + 1]))
  {
    var prefix := request[..i];
    assert request[..i + 1] == prefix + [request[i]];
    ToSetSnoc(prefix, request[i]);
    WithoutTwice(classes, ToSet(prefix), {request[i]});
  }

  lemma ToSetSnoc(s: seq<string>, x: string)
    ensures ToSet(s + [x]) == ToSet(s) + {x}
  {
  }

  /** The purged registry entries are the entries that were not requested. */
  lemma PurgedMembers(classes: seq<string>, request: seq<string>)
    ensures forall l :: l in Without(classes, ToSet(request)) <==> l in classes && l !in request
  {
    WithoutMembers(classes, ToSet(request));
    assert forall l :: l in ToSet(request) <==> l in request;
  }

  /** The registry update with every occurrence of each requested label removed. */
  method PurgeFromRegistry(classes: seq<string>, request: seq<string>) returns (r: seq<string>)
    ensures r == Without(classes, ToSet(request))
    ensures forall l :: l in r <==> l in classes && l !in request
  {
    r := classes;
    WithoutKeepsAll(classes, {});
    assert ToSet(request[..0]) == {};
    for i := 0 to |request|
      invariant r == Without(classes, ToSet(request[..i]))
    {
      var name := request[i];
      ghost var before := r;
      if name in r {
        r := RemoveEntries(r, {name});
      } else {
        WithoutKeepsAll(r, {name});
      }
      PurgeNext(classes, request, i, before, r);
    }
    assert request[..|request|] == request;
    PurgedMembers(classes, request);
  }

  /** The registry after the cascade: each requested group's class list without the
      requested labels. */
  function PurgedClasses(classes: map<string, seq<string>>, groups: seq<string>, params: map<string, seq<string>>): (r: map<string, seq<string>>)
    ensures r.Keys == classes.Keys
  {
    if groups == [] then classes
    else
      var prev := PurgedClasses(classes, groups[..|groups| - 1], params);
      var group := groups[|groups| - 1];
      if Request(params, group) == [] || group !in prev then prev
      else prev[group := Without(prev[group], ToSet(Request(params, group)))]
  }

  lemma {:induction false} PurgedClassesResult(classes: map<string, seq<string>>, groups: seq<string>, params: map<string, seq<string>>)
    requires NoDuplicates(groups)
    ensures forall g :: g in classes ==>
              PurgedClasses(classes, groups, params)[g] ==
                if g in groups && Request(params, g) != [] then Without(classes[g], ToSet(Request(params, g))) else classes[g]
  {
    if groups != [] {
      var init := groups[..|groups| - 1];
      assert NoDuplicates(init);
      PurgedClassesResult(classes, init, params);
      assert groups[|groups| - 1] !in init;
      assert forall x :: x in groups <==> x in init || x == groups[|groups| - 1];
    }
  }

  function AllIds(n: nat): (ids: seq<nat>)
    ensures |ids| == n && forall j :: 0 <= j < n ==> ids[j] == j
  {
    seq(n, j => j)
  }

  /** `DeleteGroundTruthLabel.execute`: for every group with a request, remove the labels from
      every sample, then from the group's class list. */
  method DeleteGroundTruthLabel(ds: Dataset, groups: seq<string>, params: map<string, seq<string>>)
    requires GroupsOf(ds, groups)
    modifies ds
    ensures ds.samples == EditGroups(old(ds.samples), groups, AllIds(|old(ds.samples)|), params, RemoveKind).samples
    ensures ds.classes == PurgedClasses(old(ds.classes), groups, params)
  {
    ghost var start := ds.samples;
    ghost var classes := ds.classes;
    var i := 0;
    while i < |groups|
      invariant 0 <= i <= |groups|
      invariant |ds.samples| == |start|
      invariant ds.samples == EditGroups(start, groups[..i], AllIds(|start|), params, RemoveKind).samples
      invariant ds.classes == PurgedClasses(classes, groups[..i], params)
    {
      DeleteStep(ds, groups, i, params, start, classes);
      i := i + 1;
    }
    assert groups[..i] == groups;
  }

  /** One pass of the group loop of `DeleteGroundTruthLabel.execute`: the samples and the registry
      move on by one group. */
  method DeleteStep(ds: Dataset, groups: seq<string>, i: nat, params: map<string, seq<string>>,
                    ghost start: seq<Sample>, ghost classes: map<string, seq<string>>)
    requires i < |groups| && groups[i] in classes && |ds.samples| == |start|
    requires ds.samples == EditGroups(start, groups[..i], AllIds(|start|), params, RemoveKind).samples
    requires ds.classes == PurgedClasses(classes, groups[..i], params)
    modifies ds
    ensures |ds.samples| == |start|
    ensures ds.samples == EditGroups(start, groups[..i + 1], AllIds(|start|), params, RemoveKind).samples
    ensures ds.classes == PurgedClasses(classes, groups[..i + 1], params)
  {
    var group := groups[i];
    var request := Request(params, group);
    RemoveNeverFails(start, groups[..i], AllIds(|start|), params);
    EditGroupsNext(start, groups, i, AllIds(|start|), params, RemoveKind);
    PurgedClassesNext(classes, groups, i, params);
    if request != [] {
      assert group in ds.classes;
      DeleteFromGroup(ds, group, request);
    }
  }

  /** One more group of the cascade purges that group's requested labels, if any. */
  lemma PurgedClassesNext(classes: map<string, seq<string>>, groups: seq<string>, i: nat, params: map<string, seq<string>>)
    requires i < |groups|
    ensures var prev := PurgedClasses(classes, groups[..i], params);
            PurgedClasses(classes, groups[..i + 1], params) ==
              if Request(params, groups[i]) == [] || groups[i] !in prev then prev
              else prev[groups[i] := Without(prev[groups[i]], ToSet(Request(params, groups[i])))]
  {
    assert groups[..i + 1][..i] == groups[..i];
  }

  /** One group of `DeleteGroundTruthLabel.execute`: remove the labels from every sample, then
      from the group's class list. */
  method DeleteFromGroup(ds: Dataset, group: string, request: seq<string>)
    requires group in ds.classes
    modifies ds
    ensures ds.samples == EditAt(old(ds.samples), AllIds(|old(ds.samples)|), group, Remove(request)).samples
    ensures ds.classes == old(ds.classes)[group := Without(old(ds.classes)[group], ToSet(request))]
  {
    var ok := EditSelection(ds, AllIds(|ds.samples|), group, Remove(request));
    var purged := PurgeFromRegistry(ds.classes[group], request);
    ds.classes := ds.classes[group := purged];
  }

  /** After the cascade no sample's field of a requested group carries a deleted label, the
      group's class list holds none of them, and everything else is as before. */
  lemma DeleteCascade(samples: seq<Sample>, classes: map<string, seq<string>>, groups: seq<string>, params: map<string, seq<string>>)
    requires NoDuplicates(groups)
    ensures var out := EditGroups(samples, groups, AllIds(|samples|), params, RemoveKind).samples;
            forall i, g, l :: 0 <= i < |samples| && g in groups && l in Request(params, g) && FieldOf(out[i], g).Classifications? ==>
              l !in FieldOf(out[i], g).labels
    ensures var reg := PurgedClasses(classes, groups, params);
            forall g, l :: g in classes && g in groups && l in Request(params, g) ==> l !in reg[g]
  {
    var ids := AllIds(|samples|);
    assert NoDuplicates(ids);
    RemoveNeverFails(samples, groups, ids, params);
    EditGroupsResult(samples, groups, ids, params, RemoveKind);
    PurgedClassesResult(classes, groups, params);
    var out := EditGroups(samples, groups, ids, params, RemoveKind).samples;
    forall i, g, l | 0 <= i < |samples| && g in groups && l in Request(params, g) && FieldOf(out[i], g).Classifications?
      ensures l !in FieldOf(out[i], g).labels
    {
      assert i in ids by { assert ids[i] == i; }
      assert EditedAsExpected(out[i], samples[i], i, groups, ids, params, RemoveKind);
      var before := FieldOf(samples[i], g);
      assert FieldOf(out[i], g) == RemovedFrom(before, ToSet(Request(params, g)));
      WithoutMembers(before.labels, ToSet(Request(params, g)));
    }
    forall g, l | g in classes && g in groups && l in Request(params, g)
      ensures l !in PurgedClasses(classes, groups, params)[g]
    {
      WithoutMembers(classes[g], ToSet(Request(params, g)));
    }
  }
}
