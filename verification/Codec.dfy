/**
 * internal/database/crud.go (itemToDesire, desireToItem) and rawext_codec.go: desires and the
 * DynamoDB items that store them.
 */
module Codec {
  import opened Common
  import opened Shard

  // JSON text of a Kubernetes object, as bytes.
  type Raw = string

  /**
   * encoding/json: `reencode` is Unmarshal into `any` followed by Marshal, None when either fails;
   * `valid` is json.Valid. Both are parameters of the model.
   */
  datatype Json = Json(reencode: Raw -> Option<Raw>, valid: Raw -> bool)

  // Re-encoding rejects empty text and settles after one pass.
  ghost predicate Lawful(j: Json) {
    && j.reencode("") == None
    && (forall s, t :: j.reencode(s) == Some(t) ==> t != "" && j.valid(t) && j.reencode(t) == Some(t))
  }

  datatype ResourceReference = ResourceReference(
    group: string, version: string, resource: string, namespace: string, name: string)

  // An ApplyDesire may carry a ServerSideApply section, which may carry kubeContent.
  datatype Spec =
    | ApplySpec(clusterID: string, nodePool: string, applyType: string, target: ResourceReference,
                serverSideApply: Option<Option<Raw>>)
    | ReadSpec(clusterID: string, nodePool: string, target: ResourceReference)

  datatype Condition = Condition(kind: string, status: bool, reason: string, message: string, since: Time)

  datatype Status = Status(conditions: seq<Condition>, observed: Time, generation: int)

  // mirrored is status.kubeContent, which only a ReadDesire has.
  datatype Desire = Desire(
    id: string, version: int, updateTime: Time, createTime: Time,
    spec: Spec, status: Status, mirrored: Option<Raw>)

  predicate WellFormed(d: Desire) {
    d.spec.ApplySpec? ==> d.mirrored == None
  }

  function SpecKube(d: Desire): Option<Raw> {
    if d.spec.ApplySpec? && d.spec.serverSideApply.Some? then d.spec.serverSideApply.value else None
  }

  function WithSpecKube(d: Desire, ext: Option<Raw>): Desire {
    if d.spec.ApplySpec? then d.(spec := d.spec.(serverSideApply := Some(ext))) else d
  }

  function StatusKube(d: Desire): Option<Raw> {
    if d.spec.ReadSpec? then d.mirrored else None
  }

  function WithStatusKube(d: Desire, ext: Option<Raw>): Desire {
    if d.spec.ReadSpec? then d.(mirrored := ext) else d
  }

  // ---- items -----------------------------------------------------------------------------------

  datatype Value =
    | S(text: string)
    | N(number: int)
    | Stamp(time: Time)
    | SpecMap(spec: Spec)
    | StatusMap(status: Status)

  type Item = map<string, Value>

  const DOCUMENT_ID := "documentID"
  const SHARD := "shard"
  const SPEC_KUBE_CONTENT := "spec_kubeContent"
  const STATUS_KUBE_CONTENT := "status_kubeContent"

  // attributevalue.MarshalMap: the struct fields, without documentID and kubeContent.
  function MarshalMap(d: Desire): Item {
    var bare := if SpecKube(d).Some? then WithSpecKube(d, None) else d;
    map["version" := N(d.version), "updateTime" := Stamp(d.updateTime), "createTime" := Stamp(d.createTime),
        "spec" := SpecMap(bare.spec), "status" := StatusMap(d.status)]
  }

  // attributevalue.UnmarshalMap into a fresh `zero`: a missing attribute leaves the zero value, one of
  // another kind is an error.
  function UnmarshalMap(zero: Desire, item: Item): Result<Desire, string> {
    if ("version" in item && !item["version"].N?) || ("updateTime" in item && !item["updateTime"].Stamp?)
       || ("createTime" in item && !item["createTime"].Stamp?) || ("spec" in item && !item["spec"].SpecMap?)
       || ("status" in item && !item["status"].StatusMap?)
    then Err("unmarshal item")
    else Ok(Desire("",
                   if "version" in item then item["version"].number else zero.version,
                   if "updateTime" in item then item["updateTime"].time else zero.updateTime,
                   if "createTime" in item then item["createTime"].time else zero.createTime,
                   if "spec" in item then item["spec"].spec else zero.spec,
                   if "status" in item then item["status"].status else zero.status,
                   None))
  }

  function RawExtToString(j: Json, ext: Option<Raw>): Result<string, string> {
    if ext.None? || ext.value == "" then Ok("")
    else match j.reencode(ext.value)
      case None => Err("unmarshal RawExtension")
      case Some(s) => Ok(s)
  }

  function StringToRawExt(j: Json, s: string): Result<Option<Raw>, string> {
    if s == "" then Ok(None)
    else if !j.valid(s) then Err("stored kubeContent is not valid JSON")
    else Ok(Some(s))
  }

  function KubeAttributes(j: Json, d: Desire): Result<Item, string> {
    match RawExtToString(j, SpecKube(d))
    case Err(e) => Err(e)
    case Ok(spec) =>
      match RawExtToString(j, StatusKube(d))
      case Err(e) => Err(e)
      case Ok(status) =>
        Ok((if spec != "" then map[SPEC_KUBE_CONTENT := S(spec)] else map[])
           + (if status != "" then map[STATUS_KUBE_CONTENT := S(status)] else map[]))
  }

  function Encoded(j: Json, d: Desire): Result<Item, string> {
    match KubeAttributes(j, d)
    case Err(e) => Err(e)
    case Ok(kube) =>
      Ok(MarshalMap(d)[DOCUMENT_ID := S(d.id)][SHARD := S(ComputeShardDefault(d.id))] + kube)
  }

  function ReadText(item: Item, key: string): Option<string> {
    if key in item && item[key].S? then Some(item[key].text) else None
  }

  function Decoded(j: Json, zero: Desire, item: Item): Result<Desire, string> {
    match UnmarshalMap(zero, item)
    case Err(e) => Err(e)
    case Ok(bare) =>
      var d := match ReadText(item, DOCUMENT_ID) case None => bare case Some(id) => bare.(id := id);
      match ReadText(item, SPEC_KUBE_CONTENT)
      case None => ReadStatusKube(j, item, d)
      case Some(s) =>
        match StringToRawExt(j, s)
        case Err(e) => Err(e)
        case Ok(ext) => ReadStatusKube(j, item, WithSpecKube(d, ext))
  }

  function ReadStatusKube(j: Json, item: Item, d: Desire): Result<Desire, string> {
    match ReadText(item, STATUS_KUBE_CONTENT)
    case None => Ok(d)
    case Some(s) =>
      match StringToRawExt(j, s)
      case Err(e) => Err(e)
      case Ok(ext) => Ok(WithStatusKube(d, ext))
  }

  // The source fills the item step by step and sets the fields of the object it reads.
  method DesireToItem(j: Json, d: Desire) returns (r: Result<Item, string>)
    ensures r == Encoded(j, d)
  {
    var item := MarshalMap(d);
    item := item[DOCUMENT_ID := S(d.id)];
    item := item[SHARD := S(ComputeShardDefault(d.id))];
    var kube := KubeAttributes(j, d);
    if kube.Err? {
      return Err(kube.error);
    }
    var todo := kube.value.Keys;
    ghost var bare := item;
    while todo != {}
      invariant todo <= kube.value.Keys
      invariant item == bare + (map k | k in kube.value && k !in todo :: kube.value[k])
      decreases todo
    {
      var k :| k in todo;
      item := item[k := kube.value[k]];
      todo := todo - {k};
    }
    assert kube.value == map k | k in kube.value && k !in todo :: kube.value[k];
    return Ok(item);
  }

  method ItemToDesire(j: Json, zero: Desire, item: Item) returns (r: Result<Desire, string>)
    ensures r == Decoded(j, zero, item)
  {
    var bare := UnmarshalMap(zero, item);
    if bare.Err? {
      return Err(bare.error);
    }
    var d := bare.value;
    if DOCUMENT_ID in item && item[DOCUMENT_ID].S? {
      d := d.(id := item[DOCUMENT_ID].text);
    }
    if SPEC_KUBE_CONTENT in item && item[SPEC_KUBE_CONTENT].S? {
      var ext := StringToRawExt(j, item[SPEC_KUBE_CONTENT].text);
      if ext.Err? {
        return Err(ext.error);
      }
      d := WithSpecKube(d, ext.value);
    }
    if STATUS_KUBE_CONTENT in item && item[STATUS_KUBE_CONTENT].S? {
      var ext := StringToRawExt(j, item[STATUS_KUBE_CONTENT].text);
      if ext.Err? {
        return Err(ext.error);
      }
      d := WithStatusKube(d, ext.value);
    }
    return Ok(d);
  }

  // ---- round trip ------------------------------------------------------------------------------

  predicate EncodableRaw(j: Json, ext: Option<Raw>) {
    ext.None? || ext.value == "" || j.reencode(ext.value).Some?
  }

  predicate Encodable(j: Json, d: Desire) {
    EncodableRaw(j, SpecKube(d)) && EncodableRaw(j, StatusKube(d))
  }

  function NormalRaw(j: Json, ext: Option<Raw>): Option<Raw>
    requires EncodableRaw(j, ext)
  {
    if ext.None? || ext.value == "" then None else j.reencode(ext.value)
  }

  // The desire with each kubeContent re-encoded; empty content is no content.
  function Normal(j: Json, d: Desire): Desire
    requires Encodable(j, d)
  {
    var s := if SpecKube(d).Some? then WithSpecKube(d, NormalRaw(j, SpecKube(d))) else d;
    WithStatusKube(s, NormalRaw(j, StatusKube(d)))
  }

  // The kubeContent attributes of an item.
  lemma KubePart(j: Json, d: Desire)
    requires Lawful(j) && Encodable(j, d)
    ensures KubeAttributes(j, d).Ok?
    ensures var kube := KubeAttributes(j, d).value;
            && kube.Keys <= {SPEC_KUBE_CONTENT, STATUS_KUBE_CONTENT}
            && ReadText(kube, SPEC_KUBE_CONTENT) == NormalRaw(j, SpecKube(d))
            && ReadText(kube, STATUS_KUBE_CONTENT) == NormalRaw(j, StatusKube(d))
  {
    DistinctKeys();
  }

  // Attributes added to a struct's item are no struct fields.
  lemma StructPart(zero: Desire, fields: Item, id: Value, shard: Value, kube: Item)
    requires kube.Keys <= {SPEC_KUBE_CONTENT, STATUS_KUBE_CONTENT}
    ensures UnmarshalMap(zero, fields[DOCUMENT_ID := id][SHARD := shard] + kube) == UnmarshalMap(zero, fields)
  {
    var item := fields[DOCUMENT_ID := id][SHARD := shard] + kube;
    DistinctKeys();
    OtherKey("version");
    OtherKey("updateTime");
    OtherKey("createTime");
    OtherKey("spec");
    OtherKey("status");
  }

  // A struct field's name is none of the added ones.
  lemma OtherKey(k: string)
    requires |k| <= 10 && k != "" && k[0] != 'd' && (|k| > 1 ==> k[1] != 'h')
    ensures k !in {DOCUMENT_ID, SHARD, SPEC_KUBE_CONTENT, STATUS_KUBE_CONTENT}
  {
    DistinctKeys();
  }

  lemma AddedPart(fields: Item, id: Value, shard: Value, kube: Item)
    requires kube.Keys <= {SPEC_KUBE_CONTENT, STATUS_KUBE_CONTENT}
    requires fields.Keys !! {SPEC_KUBE_CONTENT, STATUS_KUBE_CONTENT}
    ensures var item := fields[DOCUMENT_ID := id][SHARD := shard] + kube;
            && DOCUMENT_ID in item && item[DOCUMENT_ID] == id && SHARD in item && item[SHARD] == shard
            && ReadText(item, SPEC_KUBE_CONTENT) == ReadText(kube, SPEC_KUBE_CONTENT)
            && ReadText(item, STATUS_KUBE_CONTENT) == ReadText(kube, STATUS_KUBE_CONTENT)
  {
    DistinctKeys();
  }

  lemma FieldsAreOthers(d: Desire)
    ensures MarshalMap(d).Keys == {"version", "updateTime", "createTime", "spec", "status"}
    ensures MarshalMap(d).Keys !! {DOCUMENT_ID, SHARD, SPEC_KUBE_CONTENT, STATUS_KUBE_CONTENT}
  {
    OtherKey("version");
    OtherKey("updateTime");
    OtherKey("createTime");
    OtherKey("spec");
    OtherKey("status");
  }

  lemma UnmarshalsFields(zero: Desire, d: Desire)
    ensures var bare := if SpecKube(d).Some? then WithSpecKube(d, None) else d;
            UnmarshalMap(zero, MarshalMap(d)) == Ok(bare.(id := "", mirrored := None))
  {
  }

  // What the reader finds in the item the writer made.
  lemma ItemParts(j: Json, zero: Desire, d: Desire)
    requires Lawful(j) && Encodable(j, d)
    ensures Encoded(j, d).Ok?
    ensures var item := Encoded(j, d).value;
            var bare := if SpecKube(d).Some? then WithSpecKube(d, None) else d;
            && UnmarshalMap(zero, item) == Ok(bare.(id := "", mirrored := None))
            && ReadText(item, DOCUMENT_ID) == Some(d.id)
            && ReadText(item, SPEC_KUBE_CONTENT) == NormalRaw(j, SpecKube(d))
            && ReadText(item, STATUS_KUBE_CONTENT) == NormalRaw(j, StatusKube(d))
  {
    KubePart(j, d);
    var fields, kube := MarshalMap(d), KubeAttributes(j, d).value;
    var id, shard := S(d.id), S(ComputeShardDefault(d.id));
    FieldsAreOthers(d);
    UnmarshalsFields(zero, d);
    StructPart(zero, fields, id, shard, kube);
    AddedPart(fields, id, shard, kube);
    assert Encoded(j, d).value == fields[DOCUMENT_ID := id][SHARD := shard] + kube;
  }

  // The keys differ in length or in the first character.
  lemma DistinctKeys()
    ensures |DOCUMENT_ID| == 10 && |SHARD| == 5 && |SPEC_KUBE_CONTENT| == 16 && |STATUS_KUBE_CONTENT| == 18
    ensures DOCUMENT_ID[0] == 'd' && SHARD[1] == 'h'
  {
  }

  /**
   * Writing succeeds exactly when every kubeContent is absent, empty or valid JSON. What is read back
   * is the same desire with its kubeContent re-encoded, and a second write and read changes nothing.
   */
  lemma RoundTrip(j: Json, zero: Desire, d: Desire)
    requires Lawful(j) && WellFormed(d)
    ensures Encoded(j, d).Ok? <==> Encodable(j, d)
    ensures Encodable(j, d) ==>
              var n := Normal(j, d);
              && Decoded(j, zero, Encoded(j, d).value) == Ok(n)
              && WellFormed(n) && Encodable(j, n) && Normal(j, n) == n
              && Encoded(j, n) == Encoded(j, d)
  {
    if Encodable(j, d) {
      var n := Normal(j, d);
      NormalIsStable(j, d);
      assert MarshalMap(n) == MarshalMap(d);
      ItemParts(j, zero, d);
    }
  }

  lemma NormalIsStable(j: Json, d: Desire)
    requires Lawful(j) && WellFormed(d) && Encodable(j, d)
    ensures var n := Normal(j, d);
            && WellFormed(n) && Encodable(j, n) && Normal(j, n) == n
            && KubeAttributes(j, n) == KubeAttributes(j, d)
  {
    var n := Normal(j, d);
    assert RawExtToString(j, SpecKube(d)) == RawExtToString(j, SpecKube(n));
    assert RawExtToString(j, StatusKube(d)) == RawExtToString(j, StatusKube(n));
  }

  // kubeContent as a store keeps it: re-encoded, and none for empty content.
  predicate KeptAs(j: Json, raw: Option<Raw>, kept: Option<Raw>) {
    if raw == None || raw == Some("") then kept == None else kept.Some? && kept == j.reencode(raw.value)
  }

  // What can be encoded, and what is kept of it: all but the spelling of kubeContent.
  lemma NormalExactly(j: Json, d: Desire)
    ensures Encodable(j, d) <==>
              forall raw | (SpecKube(d) == Some(raw) || StatusKube(d) == Some(raw)) && raw != "" ::
                j.reencode(raw).Some?
    ensures Encodable(j, d) && WellFormed(d) ==>
              var n := Normal(j, d);
              && n.id == d.id && n.version == d.version && n.updateTime == d.updateTime && n.createTime == d.createTime
              && n.status == d.status
              && KeptAs(j, SpecKube(d), SpecKube(n)) && KeptAs(j, StatusKube(d), StatusKube(n))
              && (d.spec.ReadSpec? ==> n.spec == d.spec && KeptAs(j, d.mirrored, n.mirrored))
              && (d.spec.ApplySpec? ==>
                   && n.spec.ApplySpec? && n.mirrored == None
                   && n.spec.(serverSideApply := None) == d.spec.(serverSideApply := None)
                   && (n.spec.serverSideApply.Some? <==> d.spec.serverSideApply.Some?))
  {
  }

  // When the kubeContent is absent, or non-empty and already in re-encoded form, nothing changes.
  lemma SettledDesiresAreKept(j: Json, zero: Desire, d: Desire)
    requires Lawful(j) && WellFormed(d)
    requires forall raw | SpecKube(d) == Some(raw) || StatusKube(d) == Some(raw) :: j.reencode(raw) == Some(raw)
    ensures Encodable(j, d) && Decoded(j, zero, Encoded(j, d).value) == Ok(d)
  {
    RoundTrip(j, zero, d);
  }

  // The attributes added by hand are distinct and none of them overwrites a struct attribute.
  lemma AddedAttributesAreNew(j: Json, d: Desire)
    requires Encodable(j, d)
    ensures MarshalMap(d).Keys !! {DOCUMENT_ID, SHARD, SPEC_KUBE_CONTENT, STATUS_KUBE_CONTENT}
    ensures forall k | k in MarshalMap(d) :: k in Encoded(j, d).value && Encoded(j, d).value[k] == MarshalMap(d)[k]
    ensures ReadText(Encoded(j, d).value, DOCUMENT_ID) == Some(d.id)
    ensures ReadText(Encoded(j, d).value, SHARD) == Some(ComputeShardDefault(d.id))
  {
    FieldsAreOthers(d);
    DistinctKeys();
  }

  // The attributes of an encoded desire, by name.
  lemma EncodedAttributes(j: Json, d: Desire)
    requires Lawful(j) && Encodable(j, d)
    ensures Encoded(j, d).Ok?
    ensures var item := Encoded(j, d).value;
            && "documentID" in item && item["documentID"] == S(d.id)
            && "shard" in item && item["shard"] == S(ComputeShardDefault(d.id))
            && "version" in item && item["version"] == N(d.version)
            && "updateTime" in item && item["updateTime"] == Stamp(d.updateTime)
            && "createTime" in item && item["createTime"] == Stamp(d.createTime)
            && "spec" in item && "status" in item && item["status"] == StatusMap(d.status)
    ensures KeptAs(j, SpecKube(d), ReadText(Encoded(j, d).value, "spec_kubeContent"))
    ensures KeptAs(j, StatusKube(d), ReadText(Encoded(j, d).value, "status_kubeContent"))
  {
    AddedAttributesAreNew(j, d);
    ItemParts(j, d, d);
    var fields := MarshalMap(d);
    assert fields["version"] == N(d.version) && fields["updateTime"] == Stamp(d.updateTime);
    assert fields["createTime"] == Stamp(d.createTime) && fields["status"] == StatusMap(d.status) && "spec" in fields;
    var kube := KubeAttributes(j, d).value;
    KubePart(j, d);
    FieldsAreOthers(d);
    AddedPart(fields, S(d.id), S(ComputeShardDefault(d.id)), kube);
  }

  // Reading an item that was written otherwise: a missing attribute leaves the zero value, one of another
  // kind or stored kubeContent that is not JSON is an error.
  lemma DecodesByAttribute(j: Json, zero: Desire, item: Item)
    ensures Decoded(j, zero, item).Ok? ==>
              var d := Decoded(j, zero, item).value;
              && ("version" !in item ==> d.version == zero.version)
              && ("updateTime" !in item ==> d.updateTime == zero.updateTime)
              && ("createTime" !in item ==> d.createTime == zero.createTime)
              && ("status" !in item ==> d.status == zero.status)
              && ("documentID" in item && item["documentID"].S? ==> d.id == item["documentID"].text)
    ensures Decoded(j, zero, item).Err? <==>
              || ("version" in item && !item["version"].N?)
              || ("updateTime" in item && !item["updateTime"].Stamp?)
              || ("createTime" in item && !item["createTime"].Stamp?)
              || ("spec" in item && !item["spec"].SpecMap?)
              || ("status" in item && !item["status"].StatusMap?)
              || NotJson(j, item, "spec_kubeContent") || NotJson(j, item, "status_kubeContent")
  {
  }

  predicate NotJson(j: Json, item: Item, key: string) {
    key in item && item[key].S? && item[key].text != "" && !j.valid(item[key].text)
  }
}
