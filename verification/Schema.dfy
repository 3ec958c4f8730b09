/** The feature registry: specs with unique names and slots, feature crosses, and row encoding. */
module Schema {
  import opened Outcomes
  import opened Seqs
  import opened Fid
  import Text

  const VALID_GROUPS := {"user", "item", "context", "cross"}

  datatype FeatureSpec = FeatureSpec(name: string, slot: int, group: string, sources: seq<string>, buckets: int)

  datatype SchemaError = UnknownGroup | TooFewBuckets | CrossNeedsSources | SourceMustBeName
    | NamesNotUnique | SlotsNotUnique | MissingField | BadFid(error: FidError)

  function CheckSpec(spec: FeatureSpec): Result<FeatureSpec, SchemaError> {
    if spec.group !in VALID_GROUPS then Failure(UnknownGroup)
    else if spec.buckets <= 1 then Failure(TooFewBuckets)
    else if spec.group == "cross" && |spec.sources| < 2 then Failure(CrossNeedsSources)
    else if spec.group != "cross" && spec.sources != [spec.name] then Failure(SourceMustBeName)
    else Success(spec)
  }

  /** Specs exist only once checked. */
  type Spec = s: FeatureSpec | CheckSpec(s).Success? witness FeatureSpec("a", 0, "user", ["a"], 2)

  datatype FeatureRegistry = FeatureRegistry(specs: seq<Spec>) {
    ghost predicate Valid() {
      && (forall i, j :: 0 <= i < j < |specs| ==> specs[i].name != specs[j].name)
      && (forall i, j :: 0 <= i < j < |specs| ==> specs[i].slot != specs[j].slot)
    }
  }

  function CountDistinct<T(==)>(s: seq<T>): nat {
    |set x | x in s|
  }

  function NewRegistry(specs: seq<Spec>): Result<FeatureRegistry, SchemaError> {
    if |specs| != CountDistinct(Map(specs, (s: Spec) => s.name)) then Failure(NamesNotUnique)
    else if |specs| != CountDistinct(Map(specs, (s: Spec) => s.slot)) then Failure(SlotsNotUnique)
    else Success(FeatureRegistry(specs))
  }

  lemma {:induction false} CountDistinctIsLength<T>(s: seq<T>)
    ensures |ToSet(s)| <= |s|
    ensures |ToSet(s)| == |s| <==> Distinct(s)
  {
    if s != [] {
      var front, x := s[..|s| - 1], s[|s| - 1];
      assert s == front + [x];
      CountDistinctIsLength(front);
      assert ToSet(s) == ToSet(front) + {x};
      if x in front {
        var i :| 0 <= i < |front| && front[i] == x;
        assert s[i] == s[|s| - 1];
      }
    }
  }

  /** The constructor accepts exactly the spec lists without repeated names or slots. */
  lemma NewRegistryIsValid(specs: seq<Spec>)
    ensures NewRegistry(specs).Success? <==> FeatureRegistry(specs).Valid()
    ensures NewRegistry(specs).Success? ==> NewRegistry(specs).value.specs == specs
  {
    var names, slots := Map(specs, (s: Spec) => s.name), Map(specs, (s: Spec) => s.slot);
    CountDistinctIsLength(names);
    CountDistinctIsLength(slots);
    assert CountDistinct(names) == |ToSet(names)| && CountDistinct(slots) == |ToSet(slots)|;
    forall i, j | 0 <= i < j < |specs|
      ensures (names[i] != names[j] <==> specs[i].name != specs[j].name) &&
              (slots[i] != slots[j] <==> specs[i].slot != specs[j].slot)
    {
    }
  }

  /** A row's fields, as `str()` renders them. */
  type Row = map<string, string>

  function RawValue(spec: Spec, row: Row): Result<string, SchemaError> {
    if spec.group != "cross" then
      if spec.name in row then Success(row[spec.name]) else Failure(MissingField)
    else if exists source :: source in spec.sources && source !in row then Failure(MissingField)
    else Success(Text.Join(Map(spec.sources, (source: string) => if source in row then row[source] else "")))
  }

  /** The raw value tells apart any two rows that differ in one of the spec's sources. */
  lemma RawValueSeparatesRows(spec: Spec, a: Row, b: Row)
    requires RawValue(spec, a).Success? && RawValue(spec, b).Success?
    ensures RawValue(spec, a) == RawValue(spec, b) <==>
      forall source :: source in spec.sources ==> source in a && source in b && a[source] == b[source]
  {
    if spec.group == "cross" {
      var left := Map(spec.sources, (source: string) => if source in a then a[source] else "");
      var right := Map(spec.sources, (source: string) => if source in b then b[source] else "");
      Text.JoinInjective(left, right);
      if left == right {
        forall source | source in spec.sources ensures source in a && source in b && a[source] == b[source] {
          var i :| 0 <= i < |spec.sources| && spec.sources[i] == source;
          assert left[i] == right[i];
        }
      }
    } else {
      assert spec.sources == [spec.name];
      assert spec.name in spec.sources;
    }
  }

  /** The spec's id and bucket are what the codec and the raw value determine. */
  ghost predicate EncodesField(spec: Spec, row: Row, codec: FidCodec, fid: nat, bucket: nat) {
    && RawValue(spec, row).Success?
    && var signature := codec.Signature(spec.name, RawValue(spec, row).value);
       codec.Unpack(fid) == Success((spec.slot, signature)) && bucket == signature % spec.buckets < spec.buckets
  }

  ghost predicate Encodable(spec: Spec, row: Row, codec: FidCodec) {
    RawValue(spec, row).Success? && 0 <= spec.slot <= codec.version.MaxSlot()
  }

  /** One field of `encode_row`. */
  method EncodeField(spec: Spec, row: Row, codec: FidCodec) returns (r: Result<(nat, nat), SchemaError>)
    ensures r.Success? <==> Encodable(spec, row, codec)
    ensures r.Success? ==> EncodesField(spec, row, codec, r.value.0, r.value.1)
  {
    hide FidCodec.Pack, FidCodec.Unpack, FidCodec.Signature;
    var raw := RawValue(spec, row);
    if raw.Failure? {
      return Failure(raw.error);
    }
    var fid := codec.Encode(spec.slot, spec.name, raw.value);
    PackThenUnpack(codec, spec.slot, codec.Signature(spec.name, raw.value));
    if fid.Failure? {
      return Failure(BadFid(fid.error));
    }
    SignatureFits(codec, spec.name, raw.value);
    SmallMod(codec.version, codec.Signature(spec.name, raw.value));
    var parts := codec.Unpack(fid.value);
    r := Success((fid.value, parts.value.1 % spec.buckets));
  }

  /** Ids of different fields differ: they unpack to different slots. */
  lemma FieldsDiffer(registry: FeatureRegistry, i: nat, j: nat, row: Row, codec: FidCodec, fid: nat, bucket: nat,
                     fid': nat, bucket': nat)
    requires registry.Valid() && i < j < |registry.specs|
    requires EncodesField(registry.specs[i], row, codec, fid, bucket)
    requires EncodesField(registry.specs[j], row, codec, fid', bucket')
    ensures fid != fid'
  {
    hide RawValue, FidCodec.Unpack;
  }

  /** Encoding succeeds exactly on rows that have all fields, under a codec that has all slots. Every id
      unpacks to its spec's slot, so the row's ids are pairwise distinct, and every bucket is in range. */
  method EncodeRow(registry: FeatureRegistry, row: Row, codec: FidCodec)
    returns (r: Result<(seq<nat>, seq<nat>), SchemaError>)
    requires registry.Valid()
    ensures r.Success? <==> forall i :: 0 <= i < |registry.specs| ==> Encodable(registry.specs[i], row, codec)
    ensures r.Success? ==> |r.value.0| == |r.value.1| == |registry.specs|
    ensures r.Success? ==> forall i :: 0 <= i < |registry.specs| ==>
      EncodesField(registry.specs[i], row, codec, r.value.0[i], r.value.1[i])
    ensures r.Success? ==> Distinct(r.value.0)
  {
    hide EncodesField, Encodable;
    var specs := registry.specs;
    var fids: seq<nat>, buckets: seq<nat> := [], [];
    for i := 0 to |specs|
      invariant |fids| == |buckets| == i
      invariant forall k :: 0 <= k < i ==> EncodesField(specs[k], row, codec, fids[k], buckets[k])
      invariant forall k :: 0 <= k < i ==> Encodable(specs[k], row, codec)
    {
      var field := EncodeField(specs[i], row, codec);
      if field.Failure? {
        return Failure(field.error);
      }
      fids, buckets := fids + [field.value.0], buckets + [field.value.1];
    }
    forall i, j | 0 <= i < j < |fids| ensures fids[i] != fids[j] {
      FieldsDiffer(registry, i, j, row, codec, fids[i], buckets[i], fids[j], buckets[j]);
    }
    r := Success((fids, buckets));
  }
}
