/**
  `bev add` (bev/cli/add.py): each source is gathered and written to its
  destination marker, merged with what the marker held before according to
  the conflict policy, and the source is removed unless it is kept.
 */
module Add {
  import opened Errors
  import opened Paths
  import opened Hash
  import opened Oracles
  import opened Ops

  /** Shared paths of two trees all carry the same key. */
  predicate Agree(current: map<string, Key>, previous: map<string, Key>) {
    forall k :: k in current && k in previous ==> current[k] == previous[k]
  }

  /** The `update` check over `set(current) & set(previous)`: a shared path
      whose keys differ, if there is one. Set iteration order is not fixed,
      so any such path may be the one reported. */
  method FindMismatch(current: map<string, Key>, previous: map<string, Key>) returns (r: Option<string>)
    ensures r.None? <==> Agree(current, previous)
    ensures r.Some? ==> r.value in current && r.value in previous && current[r.value] != previous[r.value]
  {
    var shared := current.Keys * previous.Keys;
    while shared != {}
      invariant shared <= current.Keys * previous.Keys
      invariant forall k :: k in current && k in previous && k !in shared ==> current[k] == previous[k]
      decreases shared
    {
      var k :| k in shared;
      if current[k] != previous[k] {
        return Some(k);
      }
      shared := shared - {k};
    }
    return None;
  }

  /** The merge of the new value into the previous one: a folder needs a
      previous tree and the result is their union, the new keys winning; a
      file needs a previous file key and the result is the new key. */
  function Merged(previous: HashType, current: HashType): (r: Result<HashType>)
    ensures current.TreeValue? && !previous.TreeValue? ==> r == Err(HashError(PreviousNotAFolder))
    ensures current.KeyValue? && !previous.KeyValue? ==> r == Err(HashError(PreviousNotAFile))
    ensures current.KeyValue? && previous.KeyValue? ==> r == Ok(current)
    ensures current.TreeValue? && previous.TreeValue? ==>
              && r.Ok? && r.value.TreeValue?
              && (forall k :: k in r.value.tree <==> k in previous.tree || k in current.tree)
              && (forall k :: k in current.tree ==> r.value.tree[k] == current.tree[k])
              && (forall k :: k in previous.tree && k !in current.tree ==> r.value.tree[k] == previous.tree[k])
  {
    match current
    case TreeValue(t) =>
      if !previous.TreeValue? then Err(HashError(PreviousNotAFolder))
      else Ok(TreeValue(previous.tree + t))
    case KeyValue(_) =>
      if !previous.KeyValue? then Err(HashError(PreviousNotAFile))
      else Ok(current)
  }

  /** Under `update`, the previous and the new value contradict each other. */
  predicate Clash(previous: HashType, current: HashType) {
    || (current.TreeValue? && previous.TreeValue? && !Agree(current.tree, previous.tree))
    || (current.KeyValue? && previous.KeyValue? && current.key != previous.key)
  }

  /** The `HashError` raised for a clash: it names a shared path whose keys
      differ for folders, and no path for files. */
  predicate ClashReported(previous: HashType, current: HashType, r: Result<HashType>) {
    && r.Err? && r.error.HashError? && r.error.why.Mismatch?
    && (current.KeyValue? ==> r.error.why.path.None?)
    && (current.TreeValue? ==>
          && r.error.why.path.Some?
          && var k := r.error.why.path.value;
          && previous.TreeValue? && k in current.tree && k in previous.tree
          && current.tree[k] != previous.tree[k])
  }

  /** What is read from the destination before gathering: nothing under
      `replace` or when it does not exist, otherwise `load_hash` of it. */
  function Previous(disk: Disk, store: Store, destination: Path, conflict: Conflict): (r: Result<Option<HashType>>)
    ensures conflict == Replace || !Exists(disk, destination) ==> r == Ok(None)
  {
    if Exists(disk, destination) && conflict != Replace then
      var key :- LoadKey(disk, destination);
      var p :- LoadedHash(key, store, false);
      Ok(Some(p))
    else Ok(None)
  }

  /** `value` is saved: the outcome is the saved value, or the error saving raised. */
  ghost predicate SavedAs(value: HashType, store: Store, r: Result<HashType>) {
    match SavedKey(value, store)
    case Err(e) => r == Err(e)
    case Ok(_) => r == Ok(value)
  }

  /** The outcome of `_gather_and_write`: an error, or the value saved to the destination. */
  ghost predicate AddOutcome(disk: Disk, store: Store, source: Path, destination: Path,
                             conflict: Conflict, fetch: bool, r: Result<HashType>) {
    if Exists(disk, destination) && conflict == Raise then r == Err(HashError(DestinationExists))
    else if Exists(disk, destination) && disk.kind(destination) != RegularFile then r == Err(HashError(DestinationNotAFile))
    else
      match Previous(disk, store, destination, conflict)
      case Err(e) => r == Err(e)
      case Ok(previous) =>
        match GatherSpec(disk, store, source, fetch)
        case Err(e) => r == Err(e)
        case Ok(current) =>
          if previous.None? then SavedAs(current, store, r)
          else if conflict == Update && Clash(previous.value, current) then ClashReported(previous.value, current, r)
          else
            match Merged(previous.value, current)
            case Err(e) => r == Err(e)
            case Ok(merged) => SavedAs(merged, store, r)
  }

  /** The value `_gather_and_write` saves, or None when it raises: the
      gathered value, merged into the previous one when there is one. */
  ghost function WrittenValue(disk: Disk, store: Store, source: Path, destination: Path,
                        conflict: Conflict, fetch: bool): (r: Option<HashType>)
    ensures r.Some? ==> SavedKey(r.value, store).Ok?
  {
    if Exists(disk, destination) && (conflict == Raise || disk.kind(destination) != RegularFile) then None
    else
      match Previous(disk, store, destination, conflict)
      case Err(_) => None
      case Ok(previous) =>
        match GatherSpec(disk, store, source, fetch)
        case Err(_) => None
        case Ok(current) =>
          if previous.Some? && conflict == Update && Clash(previous.value, current) then None
          else
            var value := if previous.None? then Ok(current) else Merged(previous.value, current);
            if value.Ok? && SavedKey(value.value, store).Ok? then Some(value.value) else None
  }

  /** `_gather_and_write` succeeds exactly when `WrittenValue` names a value,
      and then saves that value: its successful outcome is unique. */
  lemma WrittenValueOutcome(disk: Disk, store: Store, source: Path, destination: Path,
                            conflict: Conflict, fetch: bool, r: Result<HashType>)
    requires AddOutcome(disk, store, source, destination, conflict, fetch, r)
    ensures r.Ok? <==> WrittenValue(disk, store, source, destination, conflict, fetch).Some?
    ensures r.Ok? ==> WrittenValue(disk, store, source, destination, conflict, fetch) == Some(r.value)
  {
  }

  /** The removal of the source that follows a save, unless the source is kept. */
  function Removal(disk: Disk, source: Path, keep: bool): seq<Action> {
    if keep then [] else [Removed(source, disk.kind(source) == Directory)]
  }

  /** `_gather_and_write`. `fetch` is what `gather` passes to the store. */
  method GatherAndWrite(disk: Disk, store: Store, source: Path, destination: Path, keep: bool,
                        conflict: Conflict, fetch: bool, journal: Journal)
    returns (r: Result<HashType>)
    modifies journal
    ensures AddOutcome(disk, store, source, destination, conflict, fetch, r)
    ensures r.Err? ==> journal.actions == old(journal.actions)
    ensures r.Ok? ==> journal.actions == old(journal.actions)
                        + [WroteMarker(destination, SavedKey(r.value, store).value)]
                        + Removal(disk, source, keep)
  {
    var previous: Option<HashType> := None;
    if Exists(disk, destination) {
      if conflict == Raise {
        return Err(HashError(DestinationExists));
      }
      if disk.kind(destination) != RegularFile {
        return Err(HashError(DestinationNotAFile));
      }
      if conflict != Replace {
        var p :- LoadHash(disk, destination, store, false);
        previous := Some(p);
      }
    }
    var current :- Gather(disk, store, source, fetch);
    if previous.Some? {
      var prev := previous.value;
      if current.TreeValue? {
        if !prev.TreeValue? {
          return Err(HashError(PreviousNotAFolder));
        }
        if conflict == Update {
          var clash := FindMismatch(current.tree, prev.tree);
          if clash.Some? {
            return Err(HashError(Mismatch(clash)));
          }
        }
        current := TreeValue(prev.tree + current.tree);
      } else {
        if !prev.KeyValue? {
          return Err(HashError(PreviousNotAFile));
        }
        if conflict == Update && current.key != prev.key {
          return Err(HashError(Mismatch(None)));
        }
      }
    }
    var written :- SaveHash(current, destination, store, journal);
    if !keep {
      journal.actions := journal.actions + [Removed(source, disk.kind(source) == Directory)];
    }
    return Ok(current);
  }

  /** `replace` reads nothing from the destination and writes exactly the gathered value. */
  lemma ReplaceWritesGathered(disk: Disk, store: Store, source: Path, destination: Path, fetch: bool,
                              r: Result<HashType>)
    requires AddOutcome(disk, store, source, destination, Replace, fetch, r) && r.Ok?
    ensures Previous(disk, store, destination, Replace) == Ok(None)
    ensures GatherSpec(disk, store, source, fetch) == r && SavedKey(r.value, store).Ok?
  {
  }

  /** Under `update`, shared paths with equal keys are accepted and the saved
      tree is the union. */
  lemma UpdateAcceptsAgreeing(disk: Disk, store: Store, source: Path, destination: Path, fetch: bool,
                              r: Result<HashType>, before: map<string, Key>, after: map<string, Key>)
    requires Exists(disk, destination) && disk.kind(destination) == RegularFile
    requires Previous(disk, store, destination, Update) == Ok(Some(TreeValue(before)))
    requires GatherSpec(disk, store, source, fetch) == Ok(TreeValue(after))
    requires Agree(after, before) && SavedKey(TreeValue(before + after), store).Ok?
    requires AddOutcome(disk, store, source, destination, Update, fetch, r)
    ensures r == Ok(TreeValue(before + after))
  {
  }

  // ---------------------------------------------------------------------------
  // The pairs of `add`

  /** The marker a pair is written to, or None when the pair is skipped because
      the source is that marker itself. */
  function Target(source: Path, destination: Path): (r: Result<Option<Path>>)
    ensures r.Err? <==> !IsHash(destination) && destination == []
    ensures r.Ok? && r.value.Some? ==> IsHash(r.value.value) && r.value.value != source
    ensures IsHash(destination) ==> r == Ok(if source == destination then None else Some(destination))
    ensures r.Ok? && r.value.None? ==> IsHash(source)
  {
    var marker :- if IsHash(destination) then Ok(destination) else ToHash(destination);
    if source == marker then Ok(None) else Ok(Some(marker))
  }

  /** A destination that is not a marker is written to its `.hash` sibling,
      from which it can be recovered. */
  lemma TargetRecovers(source: Path, destination: Path)
    requires ValidPath(destination) && destination != [] && !IsHash(destination)
    requires Target(source, destination).Ok? && Target(source, destination).value.Some?
    ensures FromHash(Target(source, destination).value.value) == Ok(destination)
  {
    FromToHash(destination);
  }

  /** What `add` records for one pair: nothing when it is skipped or fails,
      otherwise the marker with the saved key and the source's removal. */
  ghost function PairActions(disk: Disk, store: Store, pair: (Path, Path), keep: bool, conflict: Conflict,
                       fetch: bool): seq<Action> {
    match Target(pair.0, pair.1)
    case Err(_) => []
    case Ok(None) => []
    case Ok(Some(target)) =>
      match WrittenValue(disk, store, pair.0, target, conflict, fetch)
      case None => []
      case Some(v) => [WroteMarker(target, SavedKey(v, store).value)] + Removal(disk, pair.0, keep)
  }

  /** What `add` records for the pairs, in order. */
  ghost function Journaled(disk: Disk, store: Store, pairs: seq<(Path, Path)>, keep: bool, conflict: Conflict,
                     fetch: bool): seq<Action> {
    if pairs == [] then []
    else Journaled(disk, store, pairs[..|pairs| - 1], keep, conflict, fetch)
         + PairActions(disk, store, pairs[|pairs| - 1], keep, conflict, fetch)
  }

  lemma JournaledStep(disk: Disk, store: Store, pairs: seq<(Path, Path)>, i: nat, keep: bool,
                      conflict: Conflict, fetch: bool)
    requires i < |pairs|
    ensures Journaled(disk, store, pairs[..i + 1], keep, conflict, fetch)
            == Journaled(disk, store, pairs[..i], keep, conflict, fetch) + PairActions(disk, store, pairs[i], keep, conflict, fetch)
  {
    assert pairs[..i + 1][..i] == pairs[..i];
  }

  /** With `keep`, the sources stay: `add` writes markers and nothing else. */
  lemma {:induction false} KeepRemovesNothing(disk: Disk, store: Store, pairs: seq<(Path, Path)>,
                                              conflict: Conflict, fetch: bool)
    ensures forall a :: a in Journaled(disk, store, pairs, true, conflict, fetch) ==> a.WroteMarker?
  {
    if pairs != [] {
      KeepRemovesNothing(disk, store, pairs[..|pairs| - 1], conflict, fetch);
    }
  }

  /** Without `keep`, every marker written is followed by the removal of its source. */
  lemma {:induction false} MarkerThenRemoval(disk: Disk, store: Store, pairs: seq<(Path, Path)>,
                                             conflict: Conflict, fetch: bool, k: nat)
    requires k < |Journaled(disk, store, pairs, false, conflict, fetch)|
    requires Journaled(disk, store, pairs, false, conflict, fetch)[k].WroteMarker?
    ensures k + 1 < |Journaled(disk, store, pairs, false, conflict, fetch)|
    ensures Journaled(disk, store, pairs, false, conflict, fetch)[k + 1].Removed?
  {
    var init := Journaled(disk, store, pairs[..|pairs| - 1], false, conflict, fetch);
    if k < |init| {
      MarkerThenRemoval(disk, store, pairs[..|pairs| - 1], conflict, fetch, k);
    }
  }

  /** The pair's source was saved as `v` into `target`: the marker holding
      its key and, unless kept, the removal of the source are in `actions`. */
  ghost predicate Wrote(disk: Disk, store: Store, source: Path, target: Path, keep: bool, conflict: Conflict,
                        fetch: bool, v: HashType, actions: seq<Action>) {
    && AddOutcome(disk, store, source, target, conflict, fetch, Ok(v))
    && SavedKey(v, store).Ok?
    && WroteMarker(target, SavedKey(v, store).value) in actions
    && forall a :: a in Removal(disk, source, keep) ==> a in actions
  }

  /** A pair `add` went through: skipped, or written as `_gather_and_write` decides. */
  ghost predicate Added(disk: Disk, store: Store, pair: (Path, Path), keep: bool, conflict: Conflict,
                        fetch: bool, actions: seq<Action>) {
    && Target(pair.0, pair.1).Ok?
    && (Target(pair.0, pair.1).value.Some? ==>
          exists v :: Wrote(disk, store, pair.0, Target(pair.0, pair.1).value.value, keep, conflict, fetch, v, actions))
  }

  /** The pair `add` stops at, with error `e`: its marker name is invalid,
      or `_gather_and_write` fails on it with `e`. */
  ghost predicate Failed(disk: Disk, store: Store, pair: (Path, Path), conflict: Conflict, fetch: bool, e: Error) {
    match Target(pair.0, pair.1)
    case Err(t) => e == t
    case Ok(target) => target.Some? && AddOutcome(disk, store, pair.0, target.value, conflict, fetch, Err(e))
  }

  lemma WroteGrows(disk: Disk, store: Store, source: Path, target: Path, keep: bool, conflict: Conflict,
                   fetch: bool, v: HashType, prior: seq<Action>, actions: seq<Action>)
    requires prior <= actions
    requires Wrote(disk, store, source, target, keep, conflict, fetch, v, prior)
    ensures Wrote(disk, store, source, target, keep, conflict, fetch, v, actions)
  {
    forall a | a in prior ensures a in actions {
      var k :| 0 <= k < |prior| && prior[k] == a;
      assert actions[k] == a;
    }
  }

  /** Extending the journal keeps every pair already added. */
  lemma AddedGrows(disk: Disk, store: Store, pairs: seq<(Path, Path)>, n: nat, keep: bool, conflict: Conflict,
                   fetch: bool, prior: seq<Action>, actions: seq<Action>)
    requires n <= |pairs| && prior <= actions
    requires forall j :: 0 <= j < n ==> Added(disk, store, pairs[j], keep, conflict, fetch, prior)
    ensures forall j :: 0 <= j < n ==> Added(disk, store, pairs[j], keep, conflict, fetch, actions)
  {
    forall j | 0 <= j < n ensures Added(disk, store, pairs[j], keep, conflict, fetch, actions) {
      var t := Target(pairs[j].0, pairs[j].1);
      if t.value.Some? {
        var v :| Wrote(disk, store, pairs[j].0, t.value.value, keep, conflict, fetch, v, prior);
        WroteGrows(disk, store, pairs[j].0, t.value.value, keep, conflict, fetch, v, prior, actions);
      }
    }
  }

  /** One pass of `add`'s loop: the pair's marker name, then `_gather_and_write`
      unless the source is that marker. */
  method AddPair(disk: Disk, store: Store, pair: (Path, Path), keep: bool, conflict: Conflict,
                 fetch: bool, journal: Journal)
    returns (r: Result<()>)
    modifies journal
    ensures r.Ok? ==> journal.actions == old(journal.actions) + PairActions(disk, store, pair, keep, conflict, fetch)
    ensures r.Err? ==> journal.actions == old(journal.actions)
    ensures r.Ok? ==> Added(disk, store, pair, keep, conflict, fetch, journal.actions)
    ensures r.Err? ==> Failed(disk, store, pair, conflict, fetch, r.error)
  {
    var (source, destination) := pair;
    if !IsHash(destination) {
      var marker := ToHash(destination);
      if marker.Err? {
        return Err(marker.error);
      }
      destination := marker.value;
    }
    assert Target(source, pair.1) == Ok(if source == destination then None else Some(destination));
    if source != destination {
      ghost var prior := journal.actions;
      var written := GatherAndWrite(disk, store, source, destination, keep, conflict, fetch, journal);
      if written.Err? {
        return Err(written.error);
      }
      WrittenValueOutcome(disk, store, source, destination, conflict, fetch, written);
      assert journal.actions[|prior|] == WroteMarker(destination, SavedKey(written.value, store).value);
      forall a | a in Removal(disk, source, keep) ensures a in journal.actions {
        assert journal.actions[|prior| + 1] == a;
      }
      assert Wrote(disk, store, source, destination, keep, conflict, fetch, written.value, journal.actions);
    }
    return Ok(());
  }

  /** Extending the `Added` prefix by one more pair. */
  lemma AddedExtend(disk: Disk, store: Store, pairs: seq<(Path, Path)>, i: nat, keep: bool, conflict: Conflict,
                    fetch: bool, actions: seq<Action>)
    requires i < |pairs|
    requires forall j :: 0 <= j < i ==> Added(disk, store, pairs[j], keep, conflict, fetch, actions)
    requires Added(disk, store, pairs[i], keep, conflict, fetch, actions)
    ensures forall j :: 0 <= j < i + 1 ==> Added(disk, store, pairs[j], keep, conflict, fetch, actions)
  {
  }

  /** Appending to a journal that holds `before` then `done`. */
  lemma AppendStep(before: seq<Action>, done: seq<Action>, more: seq<Action>, prior: seq<Action>, actions: seq<Action>)
    requires prior == before + done && actions == prior + more
    ensures prior <= actions && actions == before + (done + more)
  {
  }

  /** `add` has gone through the first `n` pairs: the journal holds exactly
      what they record, and each of them was added. */
  ghost predicate AddedFirst(disk: Disk, store: Store, pairs: seq<(Path, Path)>, n: nat, keep: bool,
                             conflict: Conflict, fetch: bool, before: seq<Action>, actions: seq<Action>) {
    && n <= |pairs|
    && actions == before + Journaled(disk, store, pairs[..n], keep, conflict, fetch)
    && forall j :: 0 <= j < n ==> Added(disk, store, pairs[j], keep, conflict, fetch, actions)
  }

  /** `add` stopped with `e` at some pair, having gone through every pair before it. */
  ghost predicate StoppedAt(disk: Disk, store: Store, pairs: seq<(Path, Path)>, keep: bool, conflict: Conflict,
                            fetch: bool, e: Error, before: seq<Action>, actions: seq<Action>) {
    exists i :: 0 <= i < |pairs| && Failed(disk, store, pairs[i], conflict, fetch, e)
                && AddedFirst(disk, store, pairs, i, keep, conflict, fetch, before, actions)
  }

  lemma AddedFirstStep(disk: Disk, store: Store, pairs: seq<(Path, Path)>, i: nat, keep: bool, conflict: Conflict,
                       fetch: bool, before: seq<Action>, prior: seq<Action>, actions: seq<Action>)
    requires i < |pairs| && AddedFirst(disk, store, pairs, i, keep, conflict, fetch, before, prior)
    requires actions == prior + PairActions(disk, store, pairs[i], keep, conflict, fetch)
    requires Added(disk, store, pairs[i], keep, conflict, fetch, actions)
    ensures AddedFirst(disk, store, pairs, i + 1, keep, conflict, fetch, before, actions)
  {
    var done := Journaled(disk, store, pairs[..i], keep, conflict, fetch);
    AppendStep(before, done, PairActions(disk, store, pairs[i], keep, conflict, fetch), prior, actions);
    JournaledStep(disk, store, pairs, i, keep, conflict, fetch);
    AddedGrows(disk, store, pairs, i, keep, conflict, fetch, prior, actions);
    AddedExtend(disk, store, pairs, i, keep, conflict, fetch, actions);
  }

  /** `add`: every pair in turn, stopping at the first error. Each pair is
      gathered from the file system as it was before `add` began. */
  method AddAll(disk: Disk, store: Store, pairs: seq<(Path, Path)>, keep: bool, conflict: Conflict,
                fetch: bool, journal: Journal)
    returns (r: Result<()>)
    modifies journal
    ensures r.Ok? ==> AddedFirst(disk, store, pairs, |pairs|, keep, conflict, fetch, old(journal.actions), journal.actions)
    ensures r.Err? ==> StoppedAt(disk, store, pairs, keep, conflict, fetch, r.error, old(journal.actions), journal.actions)
  {
    ghost var before := journal.actions;
    var i := 0;
    assert pairs[..0] == [];
    while i < |pairs|
      invariant AddedFirst(disk, store, pairs, i, keep, conflict, fetch, before, journal.actions)
    {
      ghost var prior := journal.actions;
      var step := AddPair(disk, store, pairs[i], keep, conflict, fetch, journal);
      if step.Err? {
        assert Failed(disk, store, pairs[i], conflict, fetch, step.error);
        return Err(step.error);
      }
      AddedFirstStep(disk, store, pairs, i, keep, conflict, fetch, before, prior, journal.actions);
      i := i + 1;
    }
    return Ok(());
  }
}
