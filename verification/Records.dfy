/**
  Typed records over the value tree: building a map from fields, some of them
  optional, and looking fields up again after the trip over the wire.
 */
module Records {
  import opened Bytes
  import opened Cbor
  import opened CborDecode
  import opened CborRoundTrip
  import opened KeyOrder
  import Utf8

  // ---- value accessors ------------------------------------------------------

  /** The value of the first entry whose key is the text `key`. */
  function Lookup(es: seq<Entry>, key: bytes): Option<Value> {
    if es == [] then None
    else if es[0].key == Text(key) then Some(es[0].val)
    else Lookup(es[1..], key)
  }

  /** Of several entries with the key, the first counts. */
  lemma {:induction false} FirstEntryCounts(es: seq<Entry>, key: bytes, i: nat)
    requires i < |es| && es[i].key == Text(key) && forall j :: 0 <= j < i ==> es[j].key != Text(key)
    ensures Lookup(es, key) == Some(es[i].val)
  {
    if i > 0 {
      FirstEntryCounts(es[1..], key, i - 1);
    }
  }

  function MapGet(v: Value, key: bytes): Option<Value> {
    if v.Map? then Lookup(v.entries, key) else None
  }

  function AsI64(v: Value): Option<i64> {
    match v
    case Uint(n) => if n > MAX_INT64 then None else Some(n)
    case Int(x) => Some(x)
    case _ => None
  }

  function AsText(v: Value): Option<bytes> {
    if v.Text? then Some(v.text) else None
  }

  function AsBytes(v: Value): Option<bytes> {
    if v.Bytes? then Some(v.data) else None
  }

  function AsMap(v: Value): Option<seq<Entry>> {
    if v.Map? then Some(v.entries) else None
  }

  // ---- fields ---------------------------------------------------------------

  /** A record field: its key and, unless it is an absent optional, its value. */
  datatype Field = Field(key: bytes, val: Option<Value>)

  /** The entries a record encoder appends: one for each present field, in order. */
  function Present(fs: seq<Field>): seq<Entry> {
    if fs == [] then []
    else (if fs[0].val.Some? then [Entry(Text(fs[0].key), fs[0].val.value)] else []) + Present(fs[1..])
  }

  /** The keys of the fields strictly increase, each next to the one before it. */
  predicate Chain(fs: seq<Field>) {
    |fs| < 2 || (KeyLess(fs[0].key, fs[1].key) && Chain(fs[1..]))
  }

  lemma {:induction false} ChainFirst(fs: seq<Field>, j: nat)
    requires Chain(fs) && 0 < j < |fs|
    ensures KeyLess(fs[0].key, fs[j].key) && fs[0].key != fs[j].key
  {
    if j > 1 {
      ChainFirst(fs[1..], j - 1);
      KeyTransitive(fs[0].key, fs[1].key, fs[j].key);
    }
    KeyIrreflexive(fs[0].key, fs[j].key);
  }

  /** Entries come from fields. */
  lemma {:induction false} PresentSource(fs: seq<Field>, i: nat) returns (k: nat)
    requires i < |Present(fs)|
    ensures k < |fs| && fs[k].val.Some? && Present(fs)[i] == Entry(Text(fs[k].key), fs[k].val.value)
  {
    if fs[0].val.Some? && i == 0 {
      return 0;
    }
    var k' := PresentSource(fs[1..], if fs[0].val.Some? then i - 1 else i);
    k := k' + 1;
  }

  /** Whichever optional fields are present, the record's keys are in deterministic order. */
  lemma {:induction false} PresentIsDeterministic(fs: seq<Field>)
    requires Chain(fs)
    requires forall f :: f in fs ==> |f.key| <= MAX_INT64
    ensures Deterministic(Present(fs))
  {
    if fs != [] {
      var es, tail := Present(fs), Present(fs[1..]);
      PresentIsDeterministic(fs[1..]);
      if fs[0].val.Some? {
        assert es[1..] == tail;
        forall j | 0 < j < |es| ensures LexLess(Encode(es[0].key), Encode(es[j].key)) && es[j].key.Text? {
          var k := PresentSource(fs[1..], j - 1);
          assert es[j] == tail[j - 1] == Entry(Text(fs[k + 1].key), fs[k + 1].val.value);
          assert fs[k + 1] in fs && fs[0] in fs;
          ChainFirst(fs, k + 1);
          EncodedKeyOrder(fs[0].key, fs[k + 1].key);
        }
        forall i, j | 0 < i < j < |es| ensures LexLess(Encode(es[i].key), Encode(es[j].key)) {
          assert es[i] == tail[i - 1] && es[j] == tail[j - 1];
        }
        forall i | 0 <= i < |es| ensures es[i].key.Text? && |es[i].key.text| <= MAX_INT64 {
          if i > 0 {
            assert es[i] == tail[i - 1];
          }
        }
      } else {
        assert es == tail;
      }
    }
  }

  function NormOption(o: Option<Value>): Option<Value> {
    if o.Some? then Some(Norm(o.value)) else None
  }

  lemma NormField(key: bytes, v: Value)
    ensures NormEntry(Entry(Text(key), v)) == Entry(Text(key), Norm(v))
  {
    assert Norm(Text(key)) == Text(key);
  }

  lemma {:induction false} LookupAbsent(fs: seq<Field>, key: bytes)
    requires forall f :: f in fs ==> f.key != key
    ensures Lookup(NormEntries(Present(fs)), key) == None
  {
    if fs != [] {
      LookupAbsent(fs[1..], key);
      assert fs[0] in fs;
      var es, tail := Present(fs), Present(fs[1..]);
      if fs[0].val.Some? {
        assert es[1..] == tail && es[0] == Entry(Text(fs[0].key), fs[0].val.value);
        NormField(fs[0].key, fs[0].val.value);
        assert NormEntries(es)[1..] == NormEntries(tail);
      } else {
        assert es == tail;
      }
    }
  }

  /** After the trip, each field is found under its key, and an absent one is not found. */
  lemma {:induction false} LookupPresent(fs: seq<Field>, i: nat)
    requires Chain(fs) && i < |fs|
    ensures Lookup(NormEntries(Present(fs)), fs[i].key) == NormOption(fs[i].val)
  {
    var es, tail := Present(fs), Present(fs[1..]);
    if fs[0].val.Some? {
      assert es[1..] == tail && es[0] == Entry(Text(fs[0].key), fs[0].val.value);
      NormField(fs[0].key, fs[0].val.value);
      assert NormEntries(es)[1..] == NormEntries(tail);
    } else {
      assert es == tail;
    }
    if i == 0 {
      if fs[0].val.None? {
        forall f | f in fs[1..] ensures f.key != fs[0].key {
          var j :| 0 <= j < |fs[1..]| && fs[1..][j] == f;
          ChainFirst(fs, j + 1);
        }
        LookupAbsent(fs[1..], fs[0].key);
      }
    } else {
      ChainFirst(fs, i);
      LookupPresent(fs[1..], i - 1);
    }
  }

  // ---- facts about the maps records are made of -----------------------------

  /** A field that a record may carry: a UTF-8 key and a value that fits and is nested at most `d` deep. */
  ghost predicate Sound(f: Field, d: nat) {
    && |f.key| <= MAX_INT64 && Utf8.WellFormed(f.key)
    && (f.val.Some? ==> Fits(f.val.value) && Depth(f.val.value) <= d)
  }

  lemma KeysFit(fs: seq<Field>, d: nat)
    requires forall f :: f in fs ==> Sound(f, d)
    ensures forall f :: f in fs ==> |f.key| <= MAX_INT64
  {
  }

  ghost predicate Readable(f: Field) {
    f.val.Some? ==> TextsValid(f.val.value)
  }

  lemma {:induction false} PresentSound(fs: seq<Field>, d: nat)
    requires forall f :: f in fs ==> Sound(f, d)
    ensures FitsEntries(Present(fs)) && DepthEntries(Present(fs)) <= d + 1 && |Present(fs)| <= |fs|
    ensures TextsValidEntries(Present(fs)) <==> forall f :: f in fs ==> Readable(f)
  {
    if fs != [] {
      PresentSound(fs[1..], d);
      assert fs[0] in fs && fs == [fs[0]] + fs[1..];
      var es, tail := Present(fs), Present(fs[1..]);
      if fs[0].val.Some? {
        assert es[1..] == tail;
        assert Fits(es[0].key) && Depth(es[0].key) == 0 && (TextsValid(es[0].key));
      } else {
        assert es == tail;
      }
    }
  }

  /** A record survives the wire as a map of normalised fields exactly when its text is UTF-8. */
  lemma RecordTravels(widen: Widen, fs: seq<Field>, d: nat)
    requires d < MAX_DEPTH && |fs| <= MAX_INT64
    requires forall f :: f in fs ==> Sound(f, d)
    ensures Fits(Map(Present(fs)))
    ensures Decode(widen, Encode(Map(Present(fs)))) ==
            if forall f :: f in fs ==> Readable(f) then Some(Map(NormEntries(Present(fs)))) else None
  {
    hide Dec, Decode, Encode, FitsEntries, DepthEntries, TextsValidEntries, NormEntries, Sound, Readable;
    PresentSound(fs, d);
    RoundTrip(widen, Map(Present(fs)));
  }

  /** The range of `cborAsI64`. */
  lemma AsI64Range(v: Value)
    ensures AsI64(v).Some? <==> v.Int? || (v.Uint? && v.u < 0x8000_0000_0000_0000)
    ensures v.Uint? && v.u < 0x8000_0000_0000_0000 ==> AsI64(v) == Some(v.u)
  {
  }

  /** An int64 survives the split into unsigned and negative integers. */
  lemma I64Survives(x: i64)
    ensures AsI64(Norm(Int(x))) == Some(x)
  {
  }

  function Ascii(s: string): (b: bytes)
    requires forall i :: 0 <= i < |s| ==> s[i] as int < 128
    ensures |b| == |s| && forall i :: 0 <= i < |s| ==> b[i] == s[i] as int
  {
    seq(|s|, i requires 0 <= i < |s| => s[i] as int)
  }

  predicate IsAscii(s: string) {
    |s| <= 100 && forall i :: 0 <= i < |s| ==> s[i] as int < 128
  }

  lemma AsciiKey(s: string)
    requires IsAscii(s)
    ensures Utf8.WellFormed(Ascii(s)) && |Ascii(s)| == |s| <= MAX_INT64
  {
    Utf8.AsciiWellFormed(Ascii(s));
  }

  lemma TextField(name: string, s: bytes)
    requires IsAscii(name) && |s| <= MAX_INT64
    ensures var f := Field(Ascii(name), Some(Text(s))); Sound(f, 0) && (Readable(f) <==> Utf8.WellFormed(s))
  {
    AsciiKey(name);
  }

  lemma BytesField(name: string, s: bytes)
    requires IsAscii(name) && |s| <= MAX_INT64
    ensures var f := Field(Ascii(name), Some(Bytes(s))); Sound(f, 0) && Readable(f)
  {
    AsciiKey(name);
  }

  lemma IntField(name: string, x: i64)
    requires IsAscii(name)
    ensures var f := Field(Ascii(name), Some(Int(x))); Sound(f, 0) && Readable(f)
  {
    AsciiKey(name);
  }

  lemma AbsentField(name: string)
    requires IsAscii(name)
    ensures var f := Field(Ascii(name), None); Sound(f, 0) && Readable(f)
  {
    AsciiKey(name);
  }

  function OptText(o: Option<bytes>): Option<Value> { if o.Some? then Some(Text(o.value)) else None }

  lemma OptTextField(name: string, o: Option<bytes>)
    requires IsAscii(name) && (o.Some? ==> |o.value| <= MAX_INT64)
    ensures var f := Field(Ascii(name), OptText(o));
            Sound(f, 0) && (Readable(f) <==> (o.Some? ==> Utf8.WellFormed(o.value)))
  {
    if o.Some? {
      TextField(name, o.value);
    } else {
      AbsentField(name);
    }
  }

  lemma LookupText(fs: seq<Field>, i: nat)
    requires Chain(fs) && i < |fs| && fs[i].val.Some? && fs[i].val.value.Text?
    ensures MapGet(Map(NormEntries(Present(fs))), fs[i].key) == fs[i].val
  {
    LookupPresent(fs, i);
    assert Norm(fs[i].val.value) == fs[i].val.value;
  }

  lemma LookupInt(fs: seq<Field>, i: nat)
    requires Chain(fs) && i < |fs| && fs[i].val.Some? && fs[i].val.value.Int?
    ensures var v := MapGet(Map(NormEntries(Present(fs))), fs[i].key);
            v.Some? && AsI64(v.value) == Some(fs[i].val.value.i)
  {
    LookupPresent(fs, i);
  }

  lemma LookupBytes(fs: seq<Field>, i: nat)
    requires Chain(fs) && i < |fs| && fs[i].val.Some? && fs[i].val.value.Bytes?
    ensures MapGet(Map(NormEntries(Present(fs))), fs[i].key) == fs[i].val
  {
    LookupPresent(fs, i);
    assert Norm(fs[i].val.value) == fs[i].val.value;
  }

  lemma LookupNone(fs: seq<Field>, i: nat)
    requires Chain(fs) && i < |fs| && fs[i].val.None?
    ensures MapGet(Map(NormEntries(Present(fs))), fs[i].key) == None
  {
    LookupPresent(fs, i);
  }
}
