/**
  Three generated records: a plain one, one with optional fields, and one that
  holds a map.
 */
module TaskRecords {
  import opened Bytes
  import opened Cbor
  import opened CborDecode
  import opened CborRoundTrip
  import opened KeyOrder
  import opened Records
  import Utf8

  datatype Task = Task(uuid: bytes, queue: bytes, currentState: bytes, autoTargetState: bytes,
                       submitTime: i64, updateTime: i64, timeout: i64, priority: i64)

  function TaskFields(t: Task): seq<Field> {
    [Field(Ascii("uuid"), Some(Text(t.uuid))),
     Field(Ascii("queue"), Some(Text(t.queue))),
     Field(Ascii("timeout"), Some(Int(t.timeout))),
     Field(Ascii("priority"), Some(Int(t.priority))),
     Field(Ascii("submit_time"), Some(Int(t.submitTime))),
     Field(Ascii("update_time"), Some(Int(t.updateTime))),
     Field(Ascii("current_state"), Some(Text(t.currentState))),
     Field(Ascii("auto_target_state"), Some(Text(t.autoTargetState)))]
  }

  function EncTask(t: Task): Value { Map(Present(TaskFields(t))) }

  function DecTask(v: Value): Option<Task> {
    var uuidV :- MapGet(v, Ascii("uuid"));
    var uuid :- AsText(uuidV);
    var queueV :- MapGet(v, Ascii("queue"));
    var queue :- AsText(queueV);
    var currentStateV :- MapGet(v, Ascii("current_state"));
    var currentState :- AsText(currentStateV);
    var autoTargetStateV :- MapGet(v, Ascii("auto_target_state"));
    var autoTargetState :- AsText(autoTargetStateV);
    var submitTimeV :- MapGet(v, Ascii("submit_time"));
    var submitTime :- AsI64(submitTimeV);
    var updateTimeV :- MapGet(v, Ascii("update_time"));
    var updateTime :- AsI64(updateTimeV);
    var timeoutV :- MapGet(v, Ascii("timeout"));
    var timeout :- AsI64(timeoutV);
    var priorityV :- MapGet(v, Ascii("priority"));
    var priority :- AsI64(priorityV);
    Some(Task(uuid, queue, currentState, autoTargetState, submitTime, updateTime, timeout, priority))
  }

  /** The integer under `key`. */
  predicate HasInt(v: Value, key: string, n: i64)
    requires IsAscii(key)
  {
    MapGet(v, Ascii(key)).Some? && AsI64(MapGet(v, Ascii(key)).value) == Some(n)
  }

  predicate HasText(v: Value, key: string, s: bytes)
    requires IsAscii(key)
  {
    MapGet(v, Ascii(key)) == Some(Text(s))
  }

  lemma TaskKeysAscii()
    ensures IsAscii("uuid") && IsAscii("queue") && IsAscii("current_state") && IsAscii("auto_target_state")
    ensures IsAscii("submit_time") && IsAscii("update_time") && IsAscii("timeout") && IsAscii("priority")
  {
  }

  /** A map is read as a task exactly when it holds each field under its own wire name, whatever else it holds. */
  lemma TaskWireNames(v: Value, t: Task)
    ensures IsAscii("uuid") && IsAscii("queue") && IsAscii("current_state") && IsAscii("auto_target_state")
    ensures IsAscii("submit_time") && IsAscii("update_time") && IsAscii("timeout") && IsAscii("priority")
    ensures DecTask(v) == Some(t) <==>
            && HasText(v, "uuid", t.uuid) && HasText(v, "queue", t.queue)
            && HasText(v, "current_state", t.currentState) && HasText(v, "auto_target_state", t.autoTargetState)
            && HasInt(v, "submit_time", t.submitTime) && HasInt(v, "update_time", t.updateTime)
            && HasInt(v, "timeout", t.timeout) && HasInt(v, "priority", t.priority)
  {
    hide MapGet, Ascii, IsAscii;
    TaskKeysAscii();
  }

  lemma TaskChain(t: Task)
    ensures Chain(TaskFields(t))
  {
    var fs := TaskFields(t);
    assert KeyLess(Ascii("submit_time"), Ascii("update_time"));
    assert Chain(fs[6..]);
    assert Chain(fs[5..]);
    assert Chain(fs[4..]);
    assert Chain(fs[3..]);
    assert Chain(fs[2..]);
    assert Chain(fs[1..]);
    assert fs[0..] == fs;
  }

  /** Text fields within what a Go string can hold. */
  predicate TaskFits(t: Task) {
    |t.uuid| <= MAX_INT64 && |t.queue| <= MAX_INT64 && |t.currentState| <= MAX_INT64 && |t.autoTargetState| <= MAX_INT64
  }

  ghost predicate TaskIsUtf8(t: Task) {
    && Utf8.WellFormed(t.uuid) && Utf8.WellFormed(t.queue)
    && Utf8.WellFormed(t.currentState) && Utf8.WellFormed(t.autoTargetState)
  }

  /** Looking up the fields of an encoded task gives it back. */
  lemma TaskFieldsBack(t: Task)
    ensures DecTask(Map(NormEntries(Present(TaskFields(t))))) == Some(t)
  {
    hide Norm, NormEntries, Present, Lookup, Chain;
    var fs := TaskFields(t);
    TaskChain(t);
    LookupText(fs, 0);
    LookupText(fs, 1);
    LookupInt(fs, 2);
    LookupInt(fs, 3);
    LookupInt(fs, 4);
    LookupInt(fs, 5);
    LookupText(fs, 6);
    LookupText(fs, 7);
  }

  lemma TaskSound(t: Task)
    requires TaskFits(t)
    ensures forall f :: f in TaskFields(t) ==> Sound(f, 0)
    ensures (forall f :: f in TaskFields(t) ==> Readable(f)) <==> TaskIsUtf8(t)
  {
    hide Utf8.WellFormed, Sound, Readable, Ascii;
    TextField("uuid", t.uuid);
    TextField("queue", t.queue);
    IntField("timeout", t.timeout);
    IntField("priority", t.priority);
    IntField("submit_time", t.submitTime);
    IntField("update_time", t.updateTime);
    TextField("current_state", t.currentState);
    TextField("auto_target_state", t.autoTargetState);
    var fs := TaskFields(t);
    assert fs[0] in fs && fs[1] in fs && fs[6] in fs && fs[7] in fs;
  }

  /** Every task with UTF-8 text survives encoding and decoding; any other is rejected on arrival. */
  lemma TaskRoundTrip(widen: Widen, t: Task)
    requires TaskFits(t)
    ensures Fits(EncTask(t)) && Deterministic(EncTask(t).entries)
    ensures var v := Decode(widen, Encode(EncTask(t)));
            if TaskIsUtf8(t) then v.Some? && DecTask(v.value) == Some(t) else v == None
  {
    hide Decode, Encode, Norm, NormEntries, Present, Lookup, Chain, Sound, Readable, TaskFields, DecTask,
         FitsEntries, Deterministic, TaskIsUtf8;
    TaskSound(t);
    TaskShape(t);
    KeysFit(TaskFields(t), 0);
    RecordTravels(widen, TaskFields(t), 0);
    TaskFieldsBack(t);
    TaskChain(t);
    PresentIsDeterministic(TaskFields(t));
  }

  lemma TaskShape(t: Task)
    ensures |TaskFields(t)| == 8
  {
    hide Ascii;
  }

  // ---- UpdateGuardedTaskRequest ---------------------------------------------

  datatype UpdateRequest = UpdateRequest(
    operationId: bytes, uuid: bytes, queue: bytes, expectedRevision: i64, expectedState: Option<bytes>,
    newState: bytes, autoTargetState: bytes, timeout: i64, payload: Option<bytes>, priority: Option<i64>)

  function OptBytes(o: Option<bytes>): Option<Value> { if o.Some? then Some(Bytes(o.value)) else None }

  function OptInt(o: Option<i64>): Option<Value> { if o.Some? then Some(Int(o.value)) else None }

  function UpdateFields(r: UpdateRequest): seq<Field> {
    [Field(Ascii("uuid"), Some(Text(r.uuid))),
     Field(Ascii("queue"), Some(Text(r.queue))),
     Field(Ascii("payload"), OptBytes(r.payload)),
     Field(Ascii("timeout"), Some(Int(r.timeout))),
     Field(Ascii("priority"), OptInt(r.priority)),
     Field(Ascii("new_state"), Some(Text(r.newState))),
     Field(Ascii("operation_id"), Some(Text(r.operationId))),
     Field(Ascii("expected_state"), OptText(r.expectedState)),
     Field(Ascii("auto_target_state"), Some(Text(r.autoTargetState))),
     Field(Ascii("expected_revision"), Some(Int(r.expectedRevision)))]
  }

  function EncUpdate(r: UpdateRequest): Value { Map(Present(UpdateFields(r))) }

  /** An optional field: absent stays absent, present must have the right type. */
  function Optional<T>(field: Option<Value>, read: Value -> Option<T>): Option<Option<T>> {
    if field == None then Some(None)
    else
      var x :- read(field.value);
      Some(Some(x))
  }

  function DecUpdate(v: Value): Option<UpdateRequest> {
    var operationIdV :- MapGet(v, Ascii("operation_id"));
    var operationId :- AsText(operationIdV);
    var uuidV :- MapGet(v, Ascii("uuid"));
    var uuid :- AsText(uuidV);
    var queueV :- MapGet(v, Ascii("queue"));
    var queue :- AsText(queueV);
    var expectedRevisionV :- MapGet(v, Ascii("expected_revision"));
    var expectedRevision :- AsI64(expectedRevisionV);
    var expectedState :- Optional(MapGet(v, Ascii("expected_state")), AsText);
    var newStateV :- MapGet(v, Ascii("new_state"));
    var newState :- AsText(newStateV);
    var autoTargetStateV :- MapGet(v, Ascii("auto_target_state"));
    var autoTargetState :- AsText(autoTargetStateV);
    var timeoutV :- MapGet(v, Ascii("timeout"));
    var timeout :- AsI64(timeoutV);
    var payload :- Optional(MapGet(v, Ascii("payload")), AsBytes);
    var priority :- Optional(MapGet(v, Ascii("priority")), AsI64);
    Some(UpdateRequest(operationId, uuid, queue, expectedRevision, expectedState, newState, autoTargetState,
                       timeout, payload, priority))
  }

  /** An optional field: absent exactly if its key is, else of the right type. */
  predicate HasOptText(v: Value, key: string, o: Option<bytes>)
    requires IsAscii(key)
  {
    MapGet(v, Ascii(key)) == if o.Some? then Some(Text(o.value)) else None
  }

  predicate HasOptBytes(v: Value, key: string, o: Option<bytes>)
    requires IsAscii(key)
  {
    MapGet(v, Ascii(key)) == if o.Some? then Some(Bytes(o.value)) else None
  }

  predicate HasOptInt(v: Value, key: string, o: Option<i64>)
    requires IsAscii(key)
  {
    if o.Some? then HasInt(v, key, o.value) else MapGet(v, Ascii(key)) == None
  }

  /** The same of the update request: required fields are required, and an absent optional is not an empty one. */
  lemma UpdateWireNames(v: Value, r: UpdateRequest)
    ensures UpdateNamesAscii()
    ensures DecUpdate(v) == Some(r) <==>
            && HasText(v, "operation_id", r.operationId) && HasText(v, "uuid", r.uuid) && HasText(v, "queue", r.queue)
            && HasInt(v, "expected_revision", r.expectedRevision)
            && HasOptText(v, "expected_state", r.expectedState) && HasText(v, "new_state", r.newState)
            && HasText(v, "auto_target_state", r.autoTargetState) && HasInt(v, "timeout", r.timeout)
            && HasOptBytes(v, "payload", r.payload) && HasOptInt(v, "priority", r.priority)
  {
    hide MapGet, Ascii, IsAscii;
    UpdateKeysAscii();
  }

  predicate UpdateNamesAscii() {
    && IsAscii("uuid") && IsAscii("queue") && IsAscii("payload") && IsAscii("timeout") && IsAscii("priority")
    && IsAscii("new_state") && IsAscii("operation_id") && IsAscii("expected_state")
    && IsAscii("auto_target_state") && IsAscii("expected_revision")
  }

  lemma UpdateKeyOrder()
    ensures KeyLess(Ascii("uuid"), Ascii("queue")) && KeyLess(Ascii("queue"), Ascii("payload"))
    ensures KeyLess(Ascii("payload"), Ascii("timeout")) && KeyLess(Ascii("timeout"), Ascii("priority"))
    ensures KeyLess(Ascii("priority"), Ascii("new_state")) && KeyLess(Ascii("new_state"), Ascii("operation_id"))
    ensures KeyLess(Ascii("operation_id"), Ascii("expected_state"))
    ensures KeyLess(Ascii("expected_state"), Ascii("auto_target_state"))
    ensures KeyLess(Ascii("auto_target_state"), Ascii("expected_revision"))
  {
  }

  lemma UpdateChain(r: UpdateRequest)
    ensures Chain(UpdateFields(r))
  {
    hide KeyLess, Ascii, OptText, OptBytes, OptInt;
    var fs := UpdateFields(r);
    UpdateKeyOrder();
    assert Chain(fs[8..]);
    assert Chain(fs[7..]);
    assert Chain(fs[6..]);
    assert Chain(fs[5..]);
    assert Chain(fs[4..]);
    assert Chain(fs[3..]);
    assert Chain(fs[2..]);
    assert Chain(fs[1..]);
    assert fs[0..] == fs;
  }

  predicate UpdateFits(r: UpdateRequest) {
    && |r.operationId| <= MAX_INT64 && |r.uuid| <= MAX_INT64 && |r.queue| <= MAX_INT64
    && |r.newState| <= MAX_INT64 && |r.autoTargetState| <= MAX_INT64
    && (r.expectedState.Some? ==> |r.expectedState.value| <= MAX_INT64)
    && (r.payload.Some? ==> |r.payload.value| <= MAX_INT64)
  }

  ghost predicate UpdateIsUtf8(r: UpdateRequest) {
    && Utf8.WellFormed(r.operationId) && Utf8.WellFormed(r.uuid) && Utf8.WellFormed(r.queue)
    && Utf8.WellFormed(r.newState) && Utf8.WellFormed(r.autoTargetState)
    && (r.expectedState.Some? ==> Utf8.WellFormed(r.expectedState.value))
  }

  lemma OptionalText(fs: seq<Field>, i: nat, o: Option<bytes>)
    requires Chain(fs) && i < |fs| && fs[i].val == OptText(o)
    ensures Optional(MapGet(Map(NormEntries(Present(fs))), fs[i].key), AsText) == Some(o)
  {
    if o.Some? {
      LookupText(fs, i);
    } else {
      LookupNone(fs, i);
    }
  }

  lemma OptionalBytes(fs: seq<Field>, i: nat, o: Option<bytes>)
    requires Chain(fs) && i < |fs| && fs[i].val == OptBytes(o)
    ensures Optional(MapGet(Map(NormEntries(Present(fs))), fs[i].key), AsBytes) == Some(o)
  {
    if o.Some? {
      LookupBytes(fs, i);
    } else {
      LookupNone(fs, i);
    }
  }

  lemma OptionalInt(fs: seq<Field>, i: nat, o: Option<i64>)
    requires Chain(fs) && i < |fs| && fs[i].val == OptInt(o)
    ensures Optional(MapGet(Map(NormEntries(Present(fs))), fs[i].key), AsI64) == Some(o)
  {
    if o.Some? {
      LookupInt(fs, i);
    } else {
      LookupNone(fs, i);
    }
  }

  lemma UpdateFieldsBack(r: UpdateRequest)
    ensures DecUpdate(Map(NormEntries(Present(UpdateFields(r))))) == Some(r)
  {
    hide MapGet, Norm, NormEntries, Present, Lookup, Chain, Optional, OptText, OptBytes, OptInt;
    var fs := UpdateFields(r);
    UpdateChain(r);
    LookupText(fs, 0);
    LookupText(fs, 1);
    OptionalBytes(fs, 2, r.payload);
    LookupInt(fs, 3);
    OptionalInt(fs, 4, r.priority);
    LookupText(fs, 5);
    LookupText(fs, 6);
    OptionalText(fs, 7, r.expectedState);
    LookupText(fs, 8);
    LookupInt(fs, 9);
  }

  lemma OptBytesField(name: string, o: Option<bytes>)
    requires IsAscii(name) && (o.Some? ==> |o.value| <= MAX_INT64)
    ensures var f := Field(Ascii(name), OptBytes(o)); Sound(f, 0) && Readable(f)
  {
    if o.Some? {
      BytesField(name, o.value);
    } else {
      AbsentField(name);
    }
  }

  lemma OptIntField(name: string, o: Option<i64>)
    requires IsAscii(name)
    ensures var f := Field(Ascii(name), OptInt(o)); Sound(f, 0) && Readable(f)
  {
    if o.Some? {
      IntField(name, o.value);
    } else {
      AbsentField(name);
    }
  }

  lemma UpdateSound(r: UpdateRequest)
    requires UpdateFits(r)
    ensures forall f :: f in UpdateFields(r) ==> Sound(f, 0)
    ensures (forall f :: f in UpdateFields(r) ==> Readable(f)) <==> UpdateIsUtf8(r)
  {
    hide Utf8.WellFormed, Sound, Readable, Ascii, OptText, OptBytes, OptInt, IsAscii;
    var fs := UpdateFields(r);
    UpdateFirstSound(r);
    UpdateLastSound(r);
    assert fs == fs[..5] + fs[5..];
  }

  lemma UpdateFirstSound(r: UpdateRequest)
    requires UpdateFits(r)
    ensures forall f :: f in UpdateFields(r)[..5] ==> Sound(f, 0)
    ensures (forall f :: f in UpdateFields(r)[..5] ==> Readable(f)) <==>
            Utf8.WellFormed(r.uuid) && Utf8.WellFormed(r.queue)
  {
    hide Utf8.WellFormed, Sound, Readable, Ascii, OptText, OptBytes, OptInt, IsAscii;
    UpdateKeysAscii();
    TextField("uuid", r.uuid);
    TextField("queue", r.queue);
    OptBytesField("payload", r.payload);
    IntField("timeout", r.timeout);
    OptIntField("priority", r.priority);
    FiveSound(UpdateFields(r)[..5]);
  }

  lemma UpdateLastSound(r: UpdateRequest)
    requires UpdateFits(r)
    ensures forall f :: f in UpdateFields(r)[5..] ==> Sound(f, 0)
    ensures (forall f :: f in UpdateFields(r)[5..] ==> Readable(f)) <==>
            && Utf8.WellFormed(r.newState) && Utf8.WellFormed(r.operationId) && Utf8.WellFormed(r.autoTargetState)
            && (r.expectedState.Some? ==> Utf8.WellFormed(r.expectedState.value))
  {
    hide Utf8.WellFormed, Sound, Readable, Ascii, OptText, OptBytes, OptInt, IsAscii;
    UpdateKeysAscii();
    TextField("new_state", r.newState);
    TextField("operation_id", r.operationId);
    OptTextField("expected_state", r.expectedState);
    TextField("auto_target_state", r.autoTargetState);
    IntField("expected_revision", r.expectedRevision);
    FiveSound(UpdateFields(r)[5..]);
  }

  /** Five fields are sound, or readable, when each of them is. */
  lemma FiveSound(fs: seq<Field>)
    requires |fs| == 5
    ensures (forall f :: f in fs ==> Sound(f, 0)) <==>
            Sound(fs[0], 0) && Sound(fs[1], 0) && Sound(fs[2], 0) && Sound(fs[3], 0) && Sound(fs[4], 0)
    ensures (forall f :: f in fs ==> Readable(f)) <==>
            Readable(fs[0]) && Readable(fs[1]) && Readable(fs[2]) && Readable(fs[3]) && Readable(fs[4])
  {
    hide Sound, Readable;
    assert fs[0] in fs && fs[1] in fs && fs[2] in fs && fs[3] in fs && fs[4] in fs;
  }

  lemma UpdateKeysAscii()
    ensures IsAscii("uuid") && IsAscii("queue") && IsAscii("payload") && IsAscii("timeout") && IsAscii("priority")
    ensures IsAscii("new_state") && IsAscii("operation_id") && IsAscii("expected_state")
    ensures IsAscii("auto_target_state") && IsAscii("expected_revision")
  {
  }

  lemma UpdateShape(r: UpdateRequest)
    ensures |UpdateFields(r)| == 10
  {
    hide Ascii, OptText, OptBytes, OptInt;
  }

  /** The request survives with every combination of its optional fields; absent stays distinct from empty. */
  lemma UpdateRoundTrip(widen: Widen, r: UpdateRequest)
    requires UpdateFits(r)
    ensures Fits(EncUpdate(r)) && Deterministic(EncUpdate(r).entries)
    ensures var v := Decode(widen, Encode(EncUpdate(r)));
            if UpdateIsUtf8(r) then v.Some? && DecUpdate(v.value) == Some(r) else v == None
  {
    hide Decode, Encode, Norm, NormEntries, Present, Lookup, Chain, Sound, Readable, UpdateFields, DecUpdate,
         FitsEntries, Deterministic, UpdateIsUtf8;
    UpdateSound(r);
    UpdateShape(r);
    KeysFit(UpdateFields(r), 0);
    RecordTravels(widen, UpdateFields(r), 0);
    UpdateFieldsBack(r);
    UpdateChain(r);
    PresentIsDeterministic(UpdateFields(r));
  }

  // ---- QueueAndStateCounts --------------------------------------------------

  datatype QueueAndStateCounts = QueueAndStateCounts(count: i64, queue: bytes, stateCounts: map<bytes, i64>)

  /** `order` lists the keys of `m`, each once, in some iteration order. */
  ghost predicate Enumerates(order: seq<bytes>, m: map<bytes, i64>) {
    && (forall k :: k in order ==> k in m)
    && (forall k :: k in m ==> k in order)
    && (forall i, j :: 0 <= i < j < |order| ==> order[i] != order[j])
  }

  /** `cborEncMap`: one entry for each key, in iteration order. */
  function EncMap(order: seq<bytes>, m: map<bytes, i64>): seq<Entry>
    requires forall k :: k in order ==> k in m
  {
    if order == [] then [] else [Entry(Text(order[0]), Int(m[order[0]]))] + EncMap(order[1..], m)
  }

  /** `cborDecMap`: later entries overwrite earlier ones. */
  function DecMapOnto(es: seq<Entry>, out: map<bytes, i64>): Option<map<bytes, i64>>
    decreases |es|
  {
    if es == [] then Some(out)
    else
      var k :- AsText(es[0].key);
      var n :- AsI64(es[0].val);
      DecMapOnto(es[1..], out[k := n])
  }

  /** Of several entries with one key, the last counts. */
  lemma {:induction false} LastEntryCounts(es: seq<Entry>, k: bytes, n: i64, out: map<bytes, i64>)
    ensures var before := DecMapOnto(es, out);
            DecMapOnto(es + [Entry(Text(k), Int(n))], out) == if before.Some? then Some(before.value[k := n]) else None
    decreases |es|
  {
    var all := es + [Entry(Text(k), Int(n))];
    if es == [] {
      assert all[1..] == [];
    } else {
      assert all[1..] == es[1..] + [Entry(Text(k), Int(n))];
      if es[0].key.Text? && AsI64(es[0].val).Some? {
        LastEntryCounts(es[1..], k, n, out[es[0].key.text := AsI64(es[0].val).value]);
      }
    }
  }

  /** The names under which counts travel. */
  lemma CountsWireNames(v: Value, r: QueueAndStateCounts)
    ensures IsAscii("queue") && IsAscii("count") && IsAscii("state_counts")
    ensures DecCounts(v) == Some(r) <==>
            && HasText(v, "queue", r.queue) && HasInt(v, "count", r.count)
            && var states := MapGet(v, Ascii("state_counts"));
               states.Some? && states.value.Map? && DecMapOnto(states.value.entries, map[]) == Some(r.stateCounts)
  {
    hide MapGet, Ascii, DecMapOnto;
  }

  function CountsFields(r: QueueAndStateCounts, order: seq<bytes>): seq<Field>
    requires Enumerates(order, r.stateCounts)
  {
    [Field(Ascii("count"), Some(Int(r.count))),
     Field(Ascii("queue"), Some(Text(r.queue))),
     Field(Ascii("state_counts"), Some(Map(EncMap(order, r.stateCounts))))]
  }

  function EncCounts(r: QueueAndStateCounts, order: seq<bytes>): Value
    requires Enumerates(order, r.stateCounts)
  {
    Map(Present(CountsFields(r, order)))
  }

  function DecCounts(v: Value): Option<QueueAndStateCounts> {
    var queueV :- MapGet(v, Ascii("queue"));
    var queue :- AsText(queueV);
    var countV :- MapGet(v, Ascii("count"));
    var count :- AsI64(countV);
    var statesV :- MapGet(v, Ascii("state_counts"));
    var entries :- AsMap(statesV);
    var states :- DecMapOnto(entries, map[]);
    Some(QueueAndStateCounts(count, queue, states))
  }

  /** `out` with the keys of `order` set as in `m`. */
  function Overlay(order: seq<bytes>, m: map<bytes, i64>, out: map<bytes, i64>): map<bytes, i64>
    requires forall k :: k in order ==> k in m
  {
    map k | k in out.Keys + (set x | x in order) :: if k in order then m[k] else out[k]
  }

  /** Decoding the entries rebuilds exactly the part of `m` that `order` lists. */
  lemma {:induction false} MapComesBack(order: seq<bytes>, m: map<bytes, i64>, out: map<bytes, i64>)
    requires forall k :: k in order ==> k in m
    ensures DecMapOnto(NormEntries(EncMap(order, m)), out) == Some(Overlay(order, m, out))
    decreases |order|
  {
    hide Overlay, Norm;
    OverlayStep(order, m, out);
    if order != [] {
      var k0 := order[0];
      var es := EncMap(order, m);
      assert es[1..] == EncMap(order[1..], m);
      NormField(k0, Int(m[k0]));
      assert NormEntries(es)[1..] == NormEntries(es[1..]);
      I64Survives(m[k0]);
      MapComesBack(order[1..], m, out[k0 := m[k0]]);
    }
  }

  lemma OverlayStep(order: seq<bytes>, m: map<bytes, i64>, out: map<bytes, i64>)
    requires forall k :: k in order ==> k in m
    ensures Overlay(order, m, out) ==
            if order == [] then out else Overlay(order[1..], m, out[order[0] := m[order[0]]])
  {
    if order != [] {
      assert order == [order[0]] + order[1..];
    }
  }

  lemma {:induction false} EncMapSound(order: seq<bytes>, m: map<bytes, i64>)
    requires forall k :: k in order ==> k in m && |k| <= MAX_INT64
    ensures |EncMap(order, m)| == |order|
    ensures FitsEntries(EncMap(order, m)) && DepthEntries(EncMap(order, m)) <= 1
    ensures TextsValidEntries(EncMap(order, m)) <==> forall k :: k in order ==> Utf8.WellFormed(k)
  {
    hide Utf8.WellFormed, FitsEntry, DepthEntry, TextsValidEntry;
    if order != [] {
      EncMapSound(order[1..], m);
      assert order == [order[0]] + order[1..];
      var es := EncMap(order, m);
      assert es[1..] == EncMap(order[1..], m);
      assert es[0] == Entry(Text(order[0]), Int(m[order[0]]));
      CountEntry(order[0], m[order[0]]);
    }
  }

  lemma CountEntry(k: bytes, n: i64)
    requires |k| <= MAX_INT64
    ensures var e := Entry(Text(k), Int(n));
            FitsEntry(e) && DepthEntry(e) == 0 && (TextsValidEntry(e) <==> Utf8.WellFormed(k))
  {
    hide Utf8.WellFormed;
    assert TextsValid(Int(n)) && Depth(Int(n)) == 0 && Depth(Text(k)) == 0;
    assert TextsValid(Text(k)) <==> Utf8.WellFormed(k);
  }

  predicate CountsFits(r: QueueAndStateCounts, order: seq<bytes>) {
    |r.queue| <= MAX_INT64 && |order| <= MAX_INT64 && forall k :: k in r.stateCounts ==> |k| <= MAX_INT64
  }

  ghost predicate CountsIsUtf8(r: QueueAndStateCounts) {
    Utf8.WellFormed(r.queue) && forall k :: k in r.stateCounts ==> Utf8.WellFormed(k)
  }

  lemma CountsChain(r: QueueAndStateCounts, order: seq<bytes>)
    requires Enumerates(order, r.stateCounts)
    ensures Chain(CountsFields(r, order))
    ensures forall f :: f in CountsFields(r, order) ==> |f.key| <= MAX_INT64
  {
    var fs := CountsFields(r, order);
    assert KeyLess(Ascii("count"), Ascii("queue"));
    assert Chain(fs[1..]);
  }

  lemma CountsSound(r: QueueAndStateCounts, order: seq<bytes>)
    requires Enumerates(order, r.stateCounts) && CountsFits(r, order)
    ensures forall f :: f in CountsFields(r, order) ==> Sound(f, 1)
    ensures (forall f :: f in CountsFields(r, order) ==> Readable(f)) <==> CountsIsUtf8(r)
  {
    hide Utf8.WellFormed, Ascii, EncMap, FitsEntries, DepthEntries, TextsValidEntries;
    AsciiKey("count");
    AsciiKey("queue");
    AsciiKey("state_counts");
    EncMapSound(order, r.stateCounts);
    var fs := CountsFields(r, order);
    var states := Map(EncMap(order, r.stateCounts));
    assert fs[0] in fs && fs[1] in fs && fs[2] in fs;
    assert Sound(fs[0], 1) && Sound(fs[1], 1) && Sound(fs[2], 1);
    assert Readable(fs[0]);
    assert Readable(fs[1]) <==> Utf8.WellFormed(r.queue);
    assert Readable(fs[2]) <==> forall k :: k in r.stateCounts ==> Utf8.WellFormed(k);
  }

  lemma CountsFieldsBack(r: QueueAndStateCounts, order: seq<bytes>)
    requires Enumerates(order, r.stateCounts)
    ensures DecCounts(Map(NormEntries(Present(CountsFields(r, order))))) == Some(r)
  {
    hide NormEntries, Present, Lookup, Chain, EncMap, DecMapOnto;
    var fs := CountsFields(r, order);
    CountsChain(r, order);
    LookupInt(fs, 0);
    LookupText(fs, 1);
    LookupPresent(fs, 2);
    MapComesBack(order, r.stateCounts, map[]);
    assert r.stateCounts == Overlay(order, r.stateCounts, map[]);
  }

  /** A record with a map survives whatever order the encoder iterates the map in. */
  lemma CountsRoundTrip(widen: Widen, r: QueueAndStateCounts, order: seq<bytes>)
    requires Enumerates(order, r.stateCounts) && CountsFits(r, order)
    ensures Fits(EncCounts(r, order)) && Deterministic(EncCounts(r, order).entries)
    ensures var v := Decode(widen, Encode(EncCounts(r, order)));
            if CountsIsUtf8(r) then v.Some? && DecCounts(v.value) == Some(r) else v == None
  {
    hide Decode, Encode, Norm, NormEntries, Present, Lookup, Chain, Sound, Readable, DecCounts,
         FitsEntries, Deterministic, CountsIsUtf8;
    CountsSound(r, order);
    RecordTravels(widen, CountsFields(r, order), 1);
    CountsFieldsBack(r, order);
    CountsChain(r, order);
    PresentIsDeterministic(CountsFields(r, order));
  }
}
