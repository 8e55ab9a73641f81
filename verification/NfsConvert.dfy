/** NFS export records as values on the wire (c_binding/lsm_convert.cpp). */
module NfsConvert {
  import opened Wrappers
  import opened Texts
  import opened Jsmn
  import opened JsonValue
  import opened JsonPayload
  import opened Ipc
  import N = Numbers

  const TWO_64 := 0x1_0000_0000_0000_0000
  const CLASS_NAME := "NfsExport"

  type Uint64 = n: int | 0 <= n < TWO_64

  /** `lsm_nfs_export`: a NULL pointer is None. */
  datatype Record = Record(id: string, fsId: string, path: Option<string>, auth: Option<string>,
                           root: Option<seq<string>>, rw: Option<seq<string>>, ro: Option<seq<string>>,
                           anonUid: Uint64, anonGid: Uint64, options: Option<string>, pluginData: Option<string>)

  /** A record, no record for want of id or file system, or the ValueException. */
  datatype Converted = Made(r: Record) | NotMade | BadValue

  // ----- to a value

  function CStr(s: Option<string>): Value {
    if s.None? then Null else Str(s.value)
  }

  function StrList(ss: seq<string>): Value {
    Arr(seq(|ss|, i requires 0 <= i < |ss| => Str(ss[i])))
  }

  function ListValue(ss: Option<seq<string>>): Value {
    StrList(if ss.None? then [] else ss.value)
  }

  /** The two largest ids are written as -1 and -2. */
  function AnonValue(n: Uint64): Value {
    if n == TWO_64 - 1 then Number(-1) else if n == TWO_64 - 2 then Number(-2) else Number(n)
  }

  /** The assignments of `nfs_export_to_value`. */
  function Fields(r: Record): seq<Member> {
    [Member("class", Str(CLASS_NAME)), Member("id", Str(r.id)), Member("fs_id", Str(r.fsId)),
     Member("export_path", CStr(r.path)), Member("auth", CStr(r.auth)), Member("root", ListValue(r.root)),
     Member("rw", ListValue(r.rw)), Member("ro", ListValue(r.ro)), Member("anonuid", AnonValue(r.anonUid)),
     Member("anongid", AnonValue(r.anonGid)), Member("options", CStr(r.options)),
     Member("plugin_data", CStr(r.pluginData))]
  }

  /** A map after assignments. */
  function Assigned(fs: seq<Member>): seq<Member> {
    if fs == [] then [] else Insert(Assigned(fs[..|fs| - 1]), fs[|fs| - 1].key, fs[|fs| - 1].value)
  }

  function ToValue(r: Record): Value {
    Obj(Assigned(Fields(r)))
  }

  // ----- from a value

  /** `sscanf("%llu")`: a minus sign wraps around, too large a number saturates. */
  function AsUint64(v: Value): Option<Uint64> {
    if !v.Num? then None
    else
      match N.Scan(v.text)
      case None => None
      case Some(n) => Some(if -TWO_64 < n < TWO_64 then n % TWO_64 else TWO_64 - 1)
  }

  /** `asC_str`: None for the exception. */
  function AsCStr(v: Value): Option<Option<string>> {
    match v
    case Str(s) => Some(Some(s))
    case Null => Some(None)
    case _ => None
  }

  /** `value_to_string_list`; a null element, for which the library's behaviour is
      undefined, counts as a bad value. */
  function AsList(v: Value): Option<seq<string>> {
    if !v.Arr? || exists e | e in v.elems :: !e.Str? then None
    else Some(seq(|v.elems|, i requires 0 <= i < |v.elems| => v.elems[i].text))
  }

  /** The record of what was read, where None stands for an exception. */
  function Assemble(root: Option<seq<string>>, rw: Option<seq<string>>, ro: Option<seq<string>>,
                    id: Option<Option<string>>, fs: Option<Option<string>>,
                    path: Option<Option<string>>, auth: Option<Option<string>>,
                    uid: Option<Uint64>, gid: Option<Uint64>,
                    options: Option<Option<string>>, data: Option<Option<string>>): Converted
  {
    if root.None? || rw.None? || ro.None? || id.None? || fs.None? || path.None? || auth.None? then BadValue
    else if uid.None? || gid.None? || options.None? || data.None? then BadValue
    else if id.value.None? || fs.value.None? then NotMade
    else Made(Record(id.value.value, fs.value.value, path.value, auth.value, root, rw, ro,
                     uid.value, gid.value, options.value, data.value))
  }

  /** `value_to_nfs_export`. */
  function FromValue(v: Value): Converted {
    if !v.Obj? || AsString(GetValue(v, "class")) != Some(CLASS_NAME) then BadValue
    else Assemble(AsList(GetValue(v, "root")), AsList(GetValue(v, "rw")), AsList(GetValue(v, "ro")),
                  AsCStr(GetValue(v, "id")), AsCStr(GetValue(v, "fs_id")),
                  AsCStr(GetValue(v, "export_path")), AsCStr(GetValue(v, "auth")),
                  AsUint64(GetValue(v, "anonuid")), AsUint64(GetValue(v, "anongid")),
                  AsCStr(GetValue(v, "options")), AsCStr(GetValue(v, "plugin_data")))
  }

  // ----- the round trip

  /** Every 64-bit id survives, whichever way it is written. */
  lemma AnonIdSurvives(n: Uint64)
    ensures AsUint64(AnonValue(n)) == Some(n)
  {
    hide N.Scan, N.DecimalInt;
    N.ScanDecimalInt(-1);
    N.ScanDecimalInt(-2);
    N.ScanDecimalInt(n);
  }

  /** Reading a printed integer as 64 bits: small negative ones wrap around, those out of
      range saturate. */
  lemma UintRead(n: int)
    ensures AsUint64(Number(n)) ==
            Some(if 0 <= n <= 0xffff_ffff_ffff_ffff then n
                 else if -0xffff_ffff_ffff_ffff <= n < 0 then n + 0x1_0000_0000_0000_0000
                 else 0xffff_ffff_ffff_ffff)
  {
    hide N.Scan, N.DecimalInt;
    N.ScanDecimalInt(n);
  }

  /** The two largest ids are written as -1 and -2, the others as they are. */
  lemma AnonIdText(n: Uint64)
    ensures AnonValue(n) == Num(if n == 0xffff_ffff_ffff_ffff then "-1"
                                else if n == 0xffff_ffff_ffff_fffe then "-2"
                                else N.Decimal(n))
  {
    assert N.Decimal(1) == "1" && N.Decimal(2) == "2";
    assert N.DecimalInt(-1) == "-1" && N.DecimalInt(-2) == "-2";
  }

  lemma {:induction false} FindInsert(ms: seq<Member>, key: string, value: Value, k: string)
    ensures Find(Insert(ms, key, value), k) == if k == key then Some(value) else Find(ms, k)
    decreases |ms|
  {
    hide Less;
    if ms != [] {
      FindInsert(ms[1..], key, value, k);
    }
  }

  predicate DistinctKeys(fs: seq<Member>) {
    forall i, j | 0 <= i < j < |fs| :: fs[i].key != fs[j].key
  }

  /** A map of assignments to distinct keys holds every one of them. */
  lemma {:induction false} FindAssigned(fs: seq<Member>, i: nat)
    requires DistinctKeys(fs) && i < |fs|
    ensures Find(Assigned(fs), fs[i].key) == Some(fs[i].value)
    decreases |fs|
  {
    hide Insert, Find;
    var n := |fs| - 1;
    FindInsert(Assigned(fs[..n]), fs[n].key, fs[n].value, fs[i].key);
    if i < n {
      FindAssigned(fs[..n], i);
      assert fs[..n][i] == fs[i];
    }
  }

  /** Length and one character, which tell the keys of a record apart. */
  function Tag(k: string): (nat, char) {
    (|k|, if |k| < 2 then ' ' else if |k| == 7 then k[4] else k[1])
  }

  predicate DistinctTags(tags: seq<(nat, char)>) {
    forall i, j | 0 <= i < j < |tags| :: tags[i] != tags[j]
  }

  lemma TagsTell(fs: seq<Member>, tags: seq<(nat, char)>)
    requires |fs| == |tags| && DistinctTags(tags) && forall i | 0 <= i < |fs| :: tags[i] == Tag(fs[i].key)
    ensures DistinctKeys(fs)
  {
    hide Tag;
    forall i, j | 0 <= i < j < |fs| ensures fs[i].key != fs[j].key {
      assert tags[i] != tags[j];
    }
  }

  lemma FieldKeys(r: Record)
    ensures DistinctKeys(Fields(r))
  {
    hide CStr, ListValue, AnonValue, DistinctKeys;
    var fs := Fields(r);
    var tags := [(5, 'l'), (2, 'd'), (5, 's'), (11, 'x'), (4, 'u'), (4, 'o'),
                 (2, 'w'), (2, 'o'), (7, 'u'), (7, 'g'), (7, 'o'), (11, 'l')];
    TagsTell(fs, tags);
  }

  lemma ListSurvives(ss: Option<seq<string>>)
    ensures AsList(ListValue(ss)) == Some(if ss.None? then [] else ss.value)
  {
    var l := if ss.None? then [] else ss.value;
    var v := StrList(l);
    assert forall i | 0 <= i < |v.elems| :: v.elems[i].Str?;
    assert AsList(v).value == l;
  }

  /** A record that came over the wire has its lists, if need be empty ones. */
  function Listed(r: Record): Record {
    r.(root := Some(if r.root.None? then [] else r.root.value),
       rw := Some(if r.rw.None? then [] else r.rw.value),
       ro := Some(if r.ro.None? then [] else r.ro.value))
  }

  lemma FieldsFound(r: Record)
    ensures forall m | m in Fields(r) :: GetValue(ToValue(r), m.key) == m.value
  {
    hide Fields, Assigned;
    FieldKeys(r);
    var fs := Fields(r);
    forall m | m in fs ensures GetValue(ToValue(r), m.key) == m.value {
      var i :| 0 <= i < |fs| && fs[i] == m;
      FindAssigned(fs, i);
    }
  }

  lemma FieldIs(r: Record, i: nat, key: string, value: Value)
    requires i < |Fields(r)| && Fields(r)[i] == Member(key, value)
    ensures GetValue(ToValue(r), key) == value
  {
    hide Fields, Assigned, GetValue;
    FieldsFound(r);
  }

  /** These fields of the record are under their keys. */
  predicate HoldsNames(v: Value, r: Record) {
    && GetValue(v, "class") == Str(CLASS_NAME)
    && GetValue(v, "id") == Str(r.id) && GetValue(v, "fs_id") == Str(r.fsId)
    && GetValue(v, "export_path") == CStr(r.path) && GetValue(v, "auth") == CStr(r.auth)
  }

  /** And so are these. */
  predicate HoldsHosts(v: Value, r: Record) {
    && GetValue(v, "root") == ListValue(r.root)
    && GetValue(v, "rw") == ListValue(r.rw) && GetValue(v, "ro") == ListValue(r.ro)
    && GetValue(v, "anonuid") == AnonValue(r.anonUid) && GetValue(v, "anongid") == AnonValue(r.anonGid)
    && GetValue(v, "options") == CStr(r.options) && GetValue(v, "plugin_data") == CStr(r.pluginData)
  }

  lemma ValueHoldsNames(r: Record)
    ensures HoldsNames(ToValue(r), r)
  {
    hide ToValue, CStr, ListValue, AnonValue, GetValue;
    FieldIs(r, 0, "class", Str(CLASS_NAME));
    FieldIs(r, 1, "id", Str(r.id));
    FieldIs(r, 2, "fs_id", Str(r.fsId));
    FieldIs(r, 3, "export_path", CStr(r.path));
    FieldIs(r, 4, "auth", CStr(r.auth));
  }

  lemma ValueHoldsHosts(r: Record)
    ensures HoldsHosts(ToValue(r), r)
  {
    hide ToValue, CStr, ListValue, AnonValue, GetValue;
    FieldIs(r, 5, "root", ListValue(r.root));
    FieldIs(r, 6, "rw", ListValue(r.rw));
    FieldIs(r, 7, "ro", ListValue(r.ro));
    FieldIs(r, 8, "anonuid", AnonValue(r.anonUid));
    FieldIs(r, 9, "anongid", AnonValue(r.anonGid));
    FieldIs(r, 10, "options", CStr(r.options));
    FieldIs(r, 11, "plugin_data", CStr(r.pluginData));
  }

  /** Text under a key. */
  function Under(v: Value, key: string): Option<string> {
    match GetValue(v, key)
    case Str(s) => Some(s)
    case _ => None
  }

  /** Whatever value is converted to a record, every text and list of the record is what
      stands under its key. */
  lemma ConvertedFields(v: Value)
    requires FromValue(v).Made?
    ensures var r := FromValue(v).r;
            && Under(v, "class") == Some("NfsExport")
            && Under(v, "id") == Some(r.id) && Under(v, "fs_id") == Some(r.fsId)
            && Under(v, "export_path") == r.path && Under(v, "auth") == r.auth
            && Under(v, "options") == r.options && Under(v, "plugin_data") == r.pluginData
            && r.root == AsList(GetValue(v, "root")) && r.rw == AsList(GetValue(v, "rw"))
            && r.ro == AsList(GetValue(v, "ro"))
            && Some(r.anonUid) == AsUint64(GetValue(v, "anonuid"))
            && Some(r.anonGid) == AsUint64(GetValue(v, "anongid"))
  {
    hide AsList, AsUint64, GetValue;
  }

  predicate TextOrNull(v: Value, key: string) {
    GetValue(v, key).Str? || GetValue(v, key).Null?
  }

  /** An object of the class with lists, texts and numbers where they belong. */
  predicate Convertible(v: Value) {
    && v.Obj? && GetValue(v, "class") == Str("NfsExport")
    && AsList(GetValue(v, "root")).Some? && AsList(GetValue(v, "rw")).Some? && AsList(GetValue(v, "ro")).Some?
    && TextOrNull(v, "id") && TextOrNull(v, "fs_id") && TextOrNull(v, "export_path") && TextOrNull(v, "auth")
    && TextOrNull(v, "options") && TextOrNull(v, "plugin_data")
    && AsUint64(GetValue(v, "anonuid")).Some? && AsUint64(GetValue(v, "anongid")).Some?
  }

  /** Any other value raises, and no record is made exactly for want of an id or a file
      system. */
  lemma ConvertedIff(v: Value)
    ensures FromValue(v) == BadValue <==> !Convertible(v)
    ensures FromValue(v) == NotMade <==>
            Convertible(v) && (GetValue(v, "id") == Null || GetValue(v, "fs_id") == Null)
  {
    hide AsList, AsUint64, GetValue;
  }

  /** The value of a record converts back to the record, a NULL list becoming an empty one. */
  lemma RecordConvertsBack(r: Record)
    ensures FromValue(ToValue(r)) == Made(Listed(r))
  {
    hide Assigned, AsUint64, AnonValue, AsList, ListValue, GetValue;
    ValueHoldsNames(r);
    ValueHoldsHosts(r);
    ListSurvives(r.root);
    ListSurvives(r.rw);
    ListSurvives(r.ro);
    AnonIdSurvives(r.anonUid);
    AnonIdSurvives(r.anonGid);
  }

  // ----- over the wire

  predicate TextOk(s: Option<string>) {
    s.Some? ==> Units(s.value)
  }

  predicate ListOk(ss: Option<seq<string>>) {
    ss.Some? ==> forall s | s in ss.value :: Units(s)
  }

  /** Every string of the record can be carried. */
  predicate Carriable(r: Record) {
    && Units(r.id) && Units(r.fsId) && TextOk(r.path) && TextOk(r.auth) && TextOk(r.options) && TextOk(r.pluginData)
    && ListOk(r.root) && ListOk(r.rw) && ListOk(r.ro)
  }

  predicate FieldOk(m: Member) {
    Units(m.key) && WellFormed(m.value)
  }

  lemma ListWellFormed(ss: Option<seq<string>>)
    requires ListOk(ss)
    ensures WellFormed(ListValue(ss))
  {
    hide Units;
    var l := if ss.None? then [] else ss.value;
    var v := StrList(l);
    forall e | e in v.elems ensures WellFormed(e) {
      var i :| 0 <= i < |v.elems| && v.elems[i] == e;
      assert l[i] in l;
    }
  }

  lemma FieldsOk(r: Record)
    requires Carriable(r)
    ensures forall m | m in Fields(r) :: FieldOk(m)
  {
    hide Units, ListValue, AnonValue, ListOk;
    ListWellFormed(r.root);
    ListWellFormed(r.rw);
    ListWellFormed(r.ro);
    AnonWellFormed(r.anonUid);
    AnonWellFormed(r.anonGid);
    var keys := ["class", "id", "fs_id", "export_path", "auth", "root",
                 "rw", "ro", "anonuid", "anongid", "options", "plugin_data"];
    KeysUnits(keys);
    PlainUnits(CLASS_NAME);
    var fs := Fields(r);
    assert forall i | 0 <= i < |fs| :: fs[i].key == keys[i];
    assert forall i | 0 <= i < |fs| :: FieldOk(fs[i]);
  }

  lemma KeysUnits(keys: seq<string>)
    requires forall i | 0 <= i < |keys| :: Plain(keys[i])
    ensures forall i | 0 <= i < |keys| :: Units(keys[i])
  {
    hide Units, Plain;
    forall i | 0 <= i < |keys| ensures Units(keys[i]) {
      PlainUnits(keys[i]);
    }
  }

  lemma AnonWellFormed(n: Uint64)
    ensures WellFormed(AnonValue(n))
  {
    hide Number, WellFormed;
    NumberWellFormed(-1);
    NumberWellFormed(-2);
    NumberWellFormed(n);
  }

  lemma {:induction false} AssignedWellFormed(fs: seq<Member>)
    requires forall m | m in fs :: FieldOk(m)
    ensures MapWellFormed(Assigned(fs))
    decreases |fs|
  {
    hide Insert, MapWellFormed, Units, WellFormed;
    if fs == [] {
      EmptyMapWellFormed();
    } else {
      var n := |fs| - 1;
      assert fs[n] in fs;
      AssignedWellFormed(fs[..n]);
      InsertWellFormed(Assigned(fs[..n]), fs[n].key, fs[n].value);
    }
  }

  lemma EmptyMapWellFormed()
    ensures MapWellFormed([])
  {
  }

  /** A record whose strings can be carried survives being printed, sent, parsed and
      converted back, with every 64-bit anonymous id. */
  lemma RecordSurvivesWire(r: Record)
    requires Carriable(r)
    ensures var v := Deserialize(Serialize(ToValue(r))); v.Some? && FromValue(v.value) == Made(Listed(r))
  {
    hide Deserialize, Serialize, FromValue, Assigned, Fields, Carriable, Units;
    FieldsOk(r);
    AssignedWellFormed(Fields(r));
    SerializedReadsBack(ToValue(r));
    RecordConvertsBack(r);
  }
}
