/** The resume manifest: an append-only log of per-page records, with the two folds
    the controller asks of it (the keys ever completed, and the latest status per
    key). The file is a sequence of lines. JSON encoding is abstracted: a line is
    a record `append` wrote, another line that parses as JSON, a blank line, or a
    line that does not parse. */
module Manifest {
  import opened Wrappers
  import Paths

  const ManifestName := "manifest.jsonl"
  const Completed := "completed"
  const Failed := "failed"

  /** What `rec.get` raises on a JSON value that is not an object. */
  const AttributeError := "AttributeError"

  /** `ManifestRecord`. Optional texts are `Option`s; the two times are seconds. */
  datatype Record = Record(
    url: string,
    normalizedUrl: string,
    timestamp: string,
    waybackUrl: string,
    status: string,
    htmlPath: Option<string>,
    pdfPath: Option<string>,
    startedAt: real,
    finishedAt: real,
    error: Option<string>)

  /** A value `json.loads` returns for a line: an object, seen through its members
      whose values are strings (a member whose value is null reads as absent
      through `get`, as a missing one does), or any other JSON value. */
  datatype Value = Object(members: map<string, string>) | NonObject

  /** One line of the manifest file as `iter_records` sees it after stripping:
      a record `append` wrote, another line that parses as JSON, a blank line, or
      a line `json.loads` refuses. */
  datatype Line = Entry(rec: Record) | Other(value: Value) | Blank | Garbled

  /** `rec.get(name)` on an object. */
  function Get(v: Value, name: string): (r: Option<string>)
    requires v.Object?
    ensures r.Some? <==> name in v.members
  {
    if name in v.members then Some(v.members[name]) else None
  }

  /** The truth value of what `get` returned: present and non-empty. */
  predicate Truthy(o: Option<string>) {
    o.Some? && o.value != ""
  }

  /** The identity of a capture: normalised URL and, as `rec.get('timestamp')`
      gives it, the timestamp or None. */
  type Key = (string, Option<string>)

  /** `(rec['normalized_url'], rec.get('timestamp'))`. */
  function KeyOf(v: Value): Key
    requires v.Object? && "normalized_url" in v.members
  {
    (v.members["normalized_url"], Get(v, "timestamp"))
  }

  /** The key of a record `append` wrote. */
  function RecordKey(r: Record): Key {
    (r.normalizedUrl, Some(r.timestamp))
  }

  function Optional(name: string, o: Option<string>): map<string, string> {
    if o.Some? then map[name := o.value] else map[]
  }

  /** The object `json.dumps(asdict(rec))` writes, through its string members:
      the two times are numbers and a None is null, so neither is one. */
  function ObjectOf(r: Record): (v: Value)
    ensures v.Object? && "normalized_url" in v.members && KeyOf(v) == RecordKey(r)
    ensures Get(v, "status") == Some(r.status)
  {
    var fixed := map["url" := r.url, "normalized_url" := r.normalizedUrl, "timestamp" := r.timestamp,
                     "wayback_url" := r.waybackUrl, "status" := r.status];
    Object(Optional("html_path", r.htmlPath) + Optional("pdf_path", r.pdfPath) + Optional("error", r.error) + fixed)
  }

  /** What `iter_records` yields for a line, if anything. */
  function Read(line: Line): Option<Value> {
    match line
    case Entry(rec) => Some(ObjectOf(rec))
    case Other(v) => Some(v)
    case Blank => None
    case Garbled => None
  }

  /** The values of the lines, in file order; blank and unparseable lines are
      skipped. */
  function Records(lines: seq<Line>): (r: seq<Value>)
    ensures |r| <= |lines|
    decreases |lines|
  {
    if lines == [] then []
    else (if Read(lines[0]).Some? then [Read(lines[0]).value] else []) + Records(lines[1..])
  }

  /** Reading concatenated lines reads each part in turn. */
  lemma {:induction false} RecordsAppend(a: seq<Line>, b: seq<Line>)
    ensures Records(a + b) == Records(a) + Records(b)
    decreases |a|
  {
    if a == [] {
      assert a + b == b;
    } else {
      var h := if Read(a[0]).Some? then [Read(a[0]).value] else [];
      assert (a + b)[0] == a[0] && (a + b)[1..] == a[1..] + b;
      assert Records(a + b) == h + Records(a[1..] + b);
      RecordsAppend(a[1..], b);
      assert Records(a) == h + Records(a[1..]);
    }
  }

  /** A value is read back exactly when some line yields it. */
  lemma {:induction false} RecordsMember(lines: seq<Line>, v: Value)
    ensures v in Records(lines) <==> exists i :: 0 <= i < |lines| && Read(lines[i]) == Some(v)
    decreases |lines|
  {
    if lines != [] {
      RecordsMember(lines[1..], v);
      if exists i :: 0 <= i < |lines[1..]| && Read(lines[1..][i]) == Some(v) {
        var i :| 0 <= i < |lines[1..]| && Read(lines[1..][i]) == Some(v);
        assert lines[i + 1] == lines[1..][i];
      }
      if exists i :: 0 <= i < |lines| && Read(lines[i]) == Some(v) {
        var i :| 0 <= i < |lines| && Read(lines[i]) == Some(v);
        if i > 0 {
          assert lines[1..][i - 1] == lines[i];
        }
      }
    }
  }

  /** A value that counts as completed for resuming:
      `rec.get('status') == 'completed' and rec.get('normalized_url')`. */
  predicate IsDone(v: Value) {
    v.Object? && Get(v, "status") == Some(Completed) && Truthy(Get(v, "normalized_url"))
  }

  /** The keys `get_completed_set` adds, one value at a time. */
  function CompletedKeys(vals: seq<Value>): set<Key>
    decreases |vals|
  {
    if vals == [] then {}
    else
      var last := vals[|vals| - 1];
      CompletedKeys(vals[..|vals| - 1]) + (if IsDone(last) then {KeyOf(last)} else {})
  }

  /** One more value adds its key when it is completed. */
  lemma CompletedKeysSnoc(vals: seq<Value>, i: int)
    requires 0 <= i < |vals|
    ensures CompletedKeys(vals[..i + 1]) == CompletedKeys(vals[..i]) + (if IsDone(vals[i]) then {KeyOf(vals[i])} else {})
  {
    assert vals[..i + 1][..i] == vals[..i];
  }

  /** `get_completed_set`: the first value that is not an object makes `rec.get`
      raise. */
  function CompletedSet(vals: seq<Value>): Result<set<Key>> {
    if NonObject in vals then Err(AttributeError) else Ok(CompletedKeys(vals))
  }

  /** The completed keys are those of the completed values. */
  lemma {:induction false} CompletedKeysMeaning(vals: seq<Value>, k: Key)
    ensures k in CompletedKeys(vals) <==> exists i :: 0 <= i < |vals| && IsDone(vals[i]) && KeyOf(vals[i]) == k
    decreases |vals|
  {
    if vals != [] {
      var init := vals[..|vals| - 1];
      CompletedKeysMeaning(init, k);
      if k in CompletedKeys(init) {
        var i :| 0 <= i < |init| && IsDone(init[i]) && KeyOf(init[i]) == k;
        assert vals[i] == init[i];
      }
      if exists i :: 0 <= i < |vals| && IsDone(vals[i]) && KeyOf(vals[i]) == k {
        var i :| 0 <= i < |vals| && IsDone(vals[i]) && KeyOf(vals[i]) == k;
        if i < |init| {
          assert init[i] == vals[i];
        }
      }
    }
  }

  /** `get_completed_set` raises exactly when some line holds a JSON value that
      is not an object; otherwise a key is in the set exactly when some value
      with that key is completed and has a normalised URL. */
  lemma CompletedSetMeaning(vals: seq<Value>, k: Key)
    ensures CompletedSet(vals).Err? <==> exists i :: 0 <= i < |vals| && vals[i].NonObject?
    ensures CompletedSet(vals).Ok? ==>
      (k in CompletedSet(vals).value <==> exists i :: 0 <= i < |vals| && IsDone(vals[i]) && KeyOf(vals[i]) == k)
  {
    CompletedKeysMeaning(vals, k);
    if exists i :: 0 <= i < |vals| && vals[i].NonObject? {
      var i :| 0 <= i < |vals| && vals[i].NonObject?;
      assert vals[i] == NonObject;
    }
  }

  /** Further values never remove a key from the completed set: a later failure
      does not undo a completion. */
  lemma {:induction false} CompletedKeysGrow(vals: seq<Value>, more: seq<Value>)
    ensures CompletedKeys(vals) <= CompletedKeys(vals + more)
    decreases |more|
  {
    if more != [] {
      var init := more[..|more| - 1];
      CompletedKeysGrow(vals, init);
      var all := vals + more;
      assert all[..|all| - 1] == vals + init;
      assert CompletedKeys(vals + init) <= CompletedKeys(all);
    } else {
      assert vals + more == vals;
    }
  }

  /** When reading the longer log does not raise, neither does reading its start,
      and the completed set only grew. */
  lemma CompletedSetGrows(vals: seq<Value>, more: seq<Value>)
    ensures CompletedSet(vals + more).Ok? ==>
      CompletedSet(vals).Ok? && CompletedSet(vals).value <= CompletedSet(vals + more).value
  {
    CompletedKeysGrow(vals, more);
    if NonObject in vals {
      var i :| 0 <= i < |vals| && vals[i] == NonObject;
      assert (vals + more)[i] == NonObject;
    }
  }

  /** A value whose key can carry a status: an object whose normalised URL and
      timestamp are both present and non-empty. */
  predicate Keyed(v: Value) {
    v.Object? && Truthy(Get(v, "normalized_url")) && Truthy(Get(v, "timestamp"))
  }

  /** The `latest` dictionary of `get_status_sets`: for each key, the status of
      its last keyed value, None when that value has none. */
  function Latest(vals: seq<Value>): (r: map<Key, Option<string>>)
    ensures forall k :: k in r ==> k.0 != "" && Truthy(k.1)
    decreases |vals|
  {
    if vals == [] then map[]
    else
      var last := vals[|vals| - 1];
      var before := Latest(vals[..|vals| - 1]);
      if Keyed(last) then before[KeyOf(last) := Get(last, "status")] else before
  }

  /** One more keyed value sets its key's status. */
  lemma LatestSnoc(vals: seq<Value>, i: int)
    requires 0 <= i < |vals|
    ensures Latest(vals[..i + 1]) == if Keyed(vals[i]) then Latest(vals[..i])[KeyOf(vals[i]) := Get(vals[i], "status")] else Latest(vals[..i])
  {
    assert vals[..i + 1][..i] == vals[..i];
  }

  /** The keys with a status are those of the keyed values. */
  lemma {:induction false} LatestKeys(vals: seq<Value>, k: Key)
    ensures k in Latest(vals) <==> exists i :: 0 <= i < |vals| && Keyed(vals[i]) && KeyOf(vals[i]) == k
    decreases |vals|
  {
    if vals != [] {
      var init := vals[..|vals| - 1];
      LatestKeys(init, k);
      if exists i :: 0 <= i < |init| && Keyed(init[i]) && KeyOf(init[i]) == k {
        var i :| 0 <= i < |init| && Keyed(init[i]) && KeyOf(init[i]) == k;
        assert vals[i] == init[i];
      }
      if exists i :: 0 <= i < |vals| && Keyed(vals[i]) && KeyOf(vals[i]) == k {
        var i :| 0 <= i < |vals| && Keyed(vals[i]) && KeyOf(vals[i]) == k;
        if i < |init| {
          assert init[i] == vals[i];
        }
      }
    }
  }

  /** Value `i` is the last keyed value with its key. */
  predicate LastFor(vals: seq<Value>, i: int) {
    0 <= i < |vals| && Keyed(vals[i])
    && forall j :: i < j < |vals| ==> !(Keyed(vals[j]) && KeyOf(vals[j]) == KeyOf(vals[i]))
  }

  /** The status kept for a key is that of its last keyed value. */
  lemma {:induction false} LatestIsLast(vals: seq<Value>, i: int)
    requires LastFor(vals, i)
    ensures KeyOf(vals[i]) in Latest(vals) && Latest(vals)[KeyOf(vals[i])] == Get(vals[i], "status")
    decreases |vals|
  {
    var n := |vals| - 1;
    if i < n {
      var init := vals[..n];
      assert init[i] == vals[i];
      assert LastFor(init, i) by {
        forall j | i < j < |init|
          ensures !(Keyed(init[j]) && KeyOf(init[j]) == KeyOf(init[i]))
        {
          assert init[j] == vals[j];
        }
      }
      LatestIsLast(init, i);
    }
  }

  /** `get_status_sets`: the completed and failed sets, or the `AttributeError`
      of the first value that is not an object. */
  function StatusSets(vals: seq<Value>): Result<(set<Key>, set<Key>)> {
    if NonObject in vals then Err(AttributeError)
    else
      var latest := Latest(vals);
      Ok((set k | k in latest && latest[k] == Some(Completed), set k | k in latest && latest[k] == Some(Failed)))
  }

  /** No key is both completed and failed. */
  lemma StatusSetsDisjoint(vals: seq<Value>)
    ensures StatusSets(vals).Ok? ==> StatusSets(vals).value.0 !! StatusSets(vals).value.1
  {
  }

  /** The status sets speak of each key's latest value only: a key is in the
      completed (failed) set exactly when its last keyed value is completed
      (failed). */
  lemma StatusSetsMeaning(vals: seq<Value>, i: int)
    requires LastFor(vals, i)
    ensures StatusSets(vals).Ok? ==>
      (KeyOf(vals[i]) in StatusSets(vals).value.0 <==> Get(vals[i], "status") == Some(Completed))
      && (KeyOf(vals[i]) in StatusSets(vals).value.1 <==> Get(vals[i], "status") == Some(Failed))
  {
    LatestIsLast(vals, i);
  }

  /** The two folds raise together: exactly when some value is not an object. */
  lemma FoldsRaiseTogether(vals: seq<Value>)
    ensures CompletedSet(vals).Err? <==> StatusSets(vals).Err?
    ensures StatusSets(vals).Err? <==> exists i :: 0 <= i < |vals| && vals[i].NonObject?
  {
    CompletedSetMeaning(vals, ("", None));
  }

  /** A completed value without a timestamp still enters the completed set, with
      None for its timestamp, but has no status: `get_status_sets` skips it. */
  lemma UntimedCompleted(vals: seq<Value>, i: int)
    requires CompletedSet(vals).Ok? && 0 <= i < |vals| && IsDone(vals[i]) && Get(vals[i], "timestamp") == None
    ensures (vals[i].members["normalized_url"], None) in CompletedSet(vals).value
    ensures StatusSets(vals).Ok?
    ensures (vals[i].members["normalized_url"], None) !in StatusSets(vals).value.0
    ensures (vals[i].members["normalized_url"], None) !in StatusSets(vals).value.1
  {
    CompletedSetMeaning(vals, KeyOf(vals[i]));
    FoldsRaiseTogether(vals);
  }

  /** There is a last keyed value for every key that has a status. */
  lemma {:induction false} LastExists(vals: seq<Value>, k: Key) returns (i: int)
    requires k in Latest(vals)
    ensures LastFor(vals, i) && KeyOf(vals[i]) == k
    decreases |vals|
  {
    var n := |vals| - 1;
    if Keyed(vals[n]) && KeyOf(vals[n]) == k {
      i := n;
    } else {
      var init := vals[..n];
      i := LastExists(init, k);
      assert vals[i] == init[i];
      forall j | i < j < |vals|
        ensures !(Keyed(vals[j]) && KeyOf(vals[j]) == KeyOf(vals[i]))
      {
        if j < n {
          assert init[j] == vals[j];
        }
      }
    }
  }

  /** Every key whose latest status is completed is in the completed set. */
  lemma StatusCompletedAreCompleted(vals: seq<Value>)
    ensures StatusSets(vals).Ok? ==> CompletedSet(vals).Ok? && StatusSets(vals).value.0 <= CompletedSet(vals).value
  {
    if StatusSets(vals).Ok? {
      forall k | k in StatusSets(vals).value.0
        ensures k in CompletedKeys(vals)
      {
        var i := LastExists(vals, k);
        LatestIsLast(vals, i);
        CompletedKeysMeaning(vals, k);
      }
    }
  }

  /** `Manifest`: the log file at `<output_dir>/manifest.jsonl`. `present` says
      whether the file exists; `lines` is its content. */
  class Manifest {
    const path: string
    var present: bool
    var lines: seq<Line>

    /** A manifest over an output directory whose file may already hold lines from
        an earlier run. */
    constructor(outputDir: string, onDisk: Option<seq<Line>>)
      ensures path == Paths.Join(outputDir, ManifestName)
      ensures present == onDisk.Some? && lines == (if onDisk.Some? then onDisk.value else [])
    {
      path := Paths.Join(outputDir, ManifestName);
      present := onDisk.Some?;
      lines := if onDisk.Some? then onDisk.value else [];
    }

    /** `append`: one line at the end, earlier lines untouched; the file exists
        afterwards. */
    method Append(rec: Record)
      modifies this
      ensures present && lines == old(lines) + [Entry(rec)]
    {
      present := true;
      lines := lines + [Entry(rec)];
    }

    /** `iter_records`: nothing for an absent file, else the values of its lines
        in file order (`RecordsMember` says which). */
    function IterRecords(): (r: seq<Value>)
      reads this
      ensures !present ==> r == []
      ensures present ==> r == Records(lines)
    {
      if present then Records(lines) else []
    }

    /** `get_completed_set`. */
    method GetCompletedSet() returns (done: Result<set<Key>>)
      ensures done == CompletedSet(IterRecords())
    {
      done := CompletedFold(IterRecords());
    }

    /** `get_status_sets`. */
    method GetStatusSets() returns (sets: Result<(set<Key>, set<Key>)>)
      ensures sets == StatusSets(IterRecords())
    {
      sets := StatusFold(IterRecords());
    }
  }

  /** The loop of `get_completed_set` over the values read. */
  method CompletedFold(recs: seq<Value>) returns (done: Result<set<Key>>)
    ensures done == CompletedSet(recs)
  {
    var keys := {};
    var i := 0;
    while i < |recs|
      invariant 0 <= i <= |recs|
      invariant forall j :: 0 <= j < i ==> recs[j].Object?
      invariant keys == CompletedKeys(recs[..i])
    {
      var rec := recs[i];
      if rec.NonObject? {
        return Err(AttributeError);
      }
      CompletedKeysSnoc(recs, i);
      if IsDone(rec) {
        keys := keys + {KeyOf(rec)};
      }
      i := i + 1;
    }
    assert recs[..|recs|] == recs;
    done := Ok(keys);
  }

  /** The loop of `get_status_sets` over the values read. */
  method StatusFold(recs: seq<Value>) returns (sets: Result<(set<Key>, set<Key>)>)
    ensures sets == StatusSets(recs)
  {
    var latest: map<Key, Option<string>> := map[];
    var i := 0;
    while i < |recs|
      invariant 0 <= i <= |recs|
      invariant forall j :: 0 <= j < i ==> recs[j].Object?
      invariant latest == Latest(recs[..i])
    {
      var rec := recs[i];
      if rec.NonObject? {
        return Err(AttributeError);
      }
      LatestSnoc(recs, i);
      var key := (Get(rec, "normalized_url"), Get(rec, "timestamp"));
      if Truthy(key.0) && Truthy(key.1) {
        latest := latest[(key.0.value, key.1) := Get(rec, "status")];
      }
      i := i + 1;
    }
    assert recs[..|recs|] == recs;
    var completed := set k | k in latest && latest[k] == Some(Completed);
    var failed := set k | k in latest && latest[k] == Some(Failed);
    sets := Ok((completed, failed));
  }

  /** Appending to a manifest whose file exists adds the record's object at the
      end of what is read back. */
  lemma AppendRead(lines: seq<Line>, rec: Record)
    ensures Records(lines + [Entry(rec)]) == Records(lines) + [ObjectOf(rec)]
  {
    RecordsAppend(lines, [Entry(rec)]);
    assert Records([Entry(rec)]) == [ObjectOf(rec)] + Records([]);
  }
}
