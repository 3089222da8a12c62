/** The covered-table registry of internal/chain/types.go and the validators of internal/chain/json.go,
    as an instance of the schema that the commitments are proved for. */
module CoveredTables {
  import opened Bytes
  import opened CanonicalJson
  import opened Wrappers
  import opened CanonicalProfile
  import opened ObjectMembers
  import opened Mapping
  import opened Mutations

  datatype Kind = Text | Integer | List | Record | Flag | Blob(size: nat)

  datatype KeyField = KeyField(name: string, positive: bool)

  datatype Field = Field(name: string, kind: Kind, nullable: bool)

  datatype TableSpec = TableSpec(name: string, key: seq<KeyField>, fields: seq<Field>)

  function Registry(): seq<TableSpec> {
    [
      TableSpec("origin_scopes", [KeyField("device_id", false), KeyField("scope_kind", false), KeyField("scope_id", false)], [
        Field("device_id", Text, false), Field("scope_kind", Text, false), Field("scope_id", Text, false),
        Field("last_sequence", Integer, false)]),
      TableSpec("audit_counters", [KeyField("device_id", false)], [
        Field("device_id", Text, false), Field("credential_epoch", Integer, false),
        Field("accepted_count", Integer, false)]),
      TableSpec("tasks", [KeyField("task_id", false)], [
        Field("task_id", Text, false), Field("title", Text, false), Field("body", Text, false),
        Field("state", Text, false), Field("state_reason", Text, true), Field("priority", Integer, false),
        Field("blocked_by", List, false), Field("labels", List, false), Field("owner_device_id", Text, true),
        Field("owner_agent_session_id", Text, true), Field("intended_device_id", Text, true),
        Field("last_release_reason", Text, true), Field("entity_version", Integer, false),
        Field("created_at", Text, false), Field("updated_at", Text, false)]),
      TableSpec("plan_revisions", [KeyField("plan_revision_id", false)], [
        Field("plan_revision_id", Text, false), Field("supersedes", Text, true), Field("title", Text, false),
        Field("body", Text, false), Field("task_ids", List, false), Field("proposed_by_device_id", Text, false),
        Field("created_at", Text, false)]),
      TableSpec("plan_current", [KeyField("session_id", false)], [
        Field("session_id", Text, false), Field("plan_revision_id", Text, true),
        Field("entity_version", Integer, false)]),
      TableSpec("memory_records", [KeyField("memory_id", false)], [
        Field("memory_id", Text, false), Field("scope", Text, false), Field("task_id", Text, true),
        Field("key", Text, false), Field("body", Text, false), Field("supersedes", Text, true),
        Field("created_at", Text, false)]),
      TableSpec("leases", [KeyField("lease_id", false)], [
        Field("lease_id", Text, false), Field("holder_device_id", Text, false),
        Field("holder_agent_session_id", Text, false), Field("scope", Text, false), Field("task_id", Text, true),
        Field("path_globs", List, true), Field("ttl_seconds", Integer, false), Field("status", Text, false),
        Field("release_reason", Text, true), Field("entity_version", Integer, false)]),
      TableSpec("devices", [KeyField("device_id", false)], [
        Field("device_id", Text, false), Field("role", Text, false), Field("identity_public_key", Blob(32), false),
        Field("daemon_version", Text, false), Field("max_apply_level", Integer, false), Field("status", Text, false),
        Field("entity_version", Integer, false)]),
      TableSpec("voter_set", [KeyField("session_id", false)], [
        Field("session_id", Text, false), Field("voter_device_ids", List, false),
        Field("voter_set_version", Integer, false)]),
      TableSpec("credential_authority", [KeyField("session_id", false)], [
        Field("session_id", Text, false), Field("voter_device_ids", List, false),
        Field("voter_set_version", Integer, false), Field("activation_source", Text, false),
        Field("activation_checkpoint_event_id", Text, true), Field("activation_proofs", List, false),
        Field("prior_authority_signer", Text, true), Field("prior_authority_handoff", Blob(64), true)]),
      TableSpec("agent_sessions", [KeyField("agent_session_id", false)], [
        Field("agent_session_id", Text, false), Field("device_id", Text, false), Field("client_kind", Text, false),
        Field("agent_profile_id", Text, true), Field("state", Text, false), Field("resume_state", Text, true),
        Field("working_root_id", Text, false), Field("end_reason", Text, true),
        Field("entity_version", Integer, false)]),
      TableSpec("canonical_refs", [KeyField("ref_name", false)], [
        Field("ref_name", Text, false), Field("commit_oid", Text, false), Field("entity_version", Integer, false)]),
      TableSpec("credential_authorizations", [KeyField("session_id", false), KeyField("device_id", false), KeyField("epoch", true)], [
        Field("session_id", Text, false), Field("device_id", Text, false), Field("epoch", Integer, false),
        Field("epoch_public_key", Blob(32), false), Field("key_digest", Blob(32), false), Field("role", Text, false),
        Field("issued_at", Text, false), Field("not_before", Text, false), Field("validity_seconds", Integer, false),
        Field("authority_voter_set_version", Integer, false), Field("clock_endorsements", List, false),
        Field("binding_signature", Blob(64), false), Field("authorization_chain_index", Integer, false)]),
      TableSpec("publications", [KeyField("publication_id", false)], [
        Field("publication_id", Text, false), Field("proposal_event_id", Text, false),
        Field("supersedes_publication_id", Text, true), Field("task_id", Text, true),
        Field("author_device_id", Text, false), Field("author_agent_session_id", Text, false),
        Field("base_commit", Text, false), Field("commit_oid", Text, false), Field("tree_oid", Text, false),
        Field("parent_oids", List, false), Field("paths", List, false), Field("artifact_digest", Blob(32), false),
        Field("resolves_conflict_ids", List, false), Field("working_root_id", Text, false),
        Field("staging_receipts", List, false), Field("state", Text, false), Field("terminal_source", Text, true),
        Field("canonical_lineage_member", Flag, false), Field("review_verdict", Text, true),
        Field("reviewer_device_id", Text, true), Field("reviewer_agent_session_id", Text, true),
        Field("review_actor_type", Text, true), Field("decision_reason", Text, true),
        Field("entity_version", Integer, false)]),
      TableSpec("control_file_proposals", [KeyField("proposal_event_id", false)], [
        Field("proposal_event_id", Text, false), Field("session_id", Text, false), Field("path", Text, false),
        Field("operation", Text, false), Field("content_digest", Blob(32), true),
        Field("content_size", Integer, false), Field("diff", Text, false),
        Field("proposed_by_device_id", Text, false), Field("chain_index", Integer, false)]),
      TableSpec("merge_conflicts", [KeyField("conflict_id", false)], [
        Field("conflict_id", Text, false), Field("publication_id", Text, false), Field("merge_kind", Text, false),
        Field("replay_commit_oid", Text, true), Field("merge_base_oids", List, false),
        Field("canonical_commit", Text, false), Field("candidate_commit", Text, false), Field("paths", List, false),
        Field("status", Text, false), Field("resolution_kind", Text, true),
        Field("resolution_publication_id", Text, true), Field("force_reason", Text, true),
        Field("resolved_by_device_id", Text, true), Field("entity_version", Integer, false)]),
      TableSpec("session_policy", [KeyField("session_id", false)], [
        Field("session_id", Text, false), Field("values", Record, false), Field("entity_version", Integer, false)])
    ]
  }

  // ---- base64url of an exact size ----

  function Sextet(c: u8): Option<nat> {
    if 0x41 <= c <= 0x5a then Some(c as int - 0x41)
    else if 0x61 <= c <= 0x7a then Some(c as int - 0x47)
    else if 0x30 <= c <= 0x39 then Some(c as int + 4)
    else if c == 0x2d then Some(62)
    else if c == 0x5f then Some(63)
    else None
  }

  /** Unpadded base64url of exactly `size` bytes, with zero trailing bits (section 5 of RFC 4648). */
  predicate IsBlob(text: Bytes, size: nat) {
    && |text| == (8 * size + 5) / 6
    && (forall i | 0 <= i < |text| :: Sextet(text[i]).Some?)
    && (text != [] ==>
          match 6 * |text| - 8 * size
          case 2 => Sextet(text[|text| - 1]).value % 4 == 0
          case 4 => Sextet(text[|text| - 1]).value % 16 == 0
          case _ => true)
  }

  // ---- validators ----

  predicate KeyComponentOk(f: KeyField, v: Json) {
    if f.positive then v.Num? && 0 < v.number <= MAX_SAFE_INTEGER else v.Str? && v.text != []
  }

  predicate KeyItemsOk(spec: TableSpec, items: seq<Json>) {
    |items| == |spec.key| && forall i | 0 <= i < |items| :: KeyComponentOk(spec.key[i], items[i])
  }

  predicate ValueOk(f: Field, v: Json) {
    if v.Null? then f.nullable
    else
      match f.kind
      case Text => v.Str?
      case Integer => v.Num? && 0 <= v.number <= MAX_SAFE_INTEGER
      case List => v.Arr?
      case Record => v.Obj?
      case Flag => v.Bool?
      case Blob(size) => v.Str? && IsBlob(v.text, size)
  }

  predicate RowMembersOk(spec: TableSpec, items: seq<Json>, members: seq<Member>) {
    && |items| == |spec.key|
    && (forall i | 0 <= i < |spec.key| :: Find(members, Ascii(spec.key[i].name)) == Some(items[i]))
    && |members| == |spec.fields|
    && (forall i | 0 <= i < |spec.fields| ::
          var v := Find(members, Ascii(spec.fields[i].name)); v.Some? && ValueOk(spec.fields[i], v.value))
  }

  ghost predicate IsKeyOf(spec: TableSpec, key: Bytes, items: seq<Json>) {
    |key| <= MAX_CANONICAL_BYTES && key == Print(Arr(items)) && Canonical(Arr(items), 0) && KeyItemsOk(spec, items)
  }

  ghost predicate IsRowOf(spec: TableSpec, items: seq<Json>, row: Bytes, members: seq<Member>) {
    |row| <= MAX_SIGNED_BYTES && row == Print(Obj(members)) && Canonical(Obj(members), 0) && RowMembersOk(spec, items, members)
  }

  /** validatePrimaryKey. */
  ghost predicate KeyOk(specs: seq<TableSpec>, t: nat, key: Bytes) {
    t < |specs| && exists items :: IsKeyOf(specs[t], key, items)
  }

  /** validateLogicalRow, with the components of a valid key. */
  ghost predicate RowOk(specs: seq<TableSpec>, t: nat, key: Bytes, row: Bytes) {
    t < |specs| && exists items, members :: IsKeyOf(specs[t], key, items) && IsRowOf(specs[t], items, row, members)
  }

  ghost function SchemaOf(specs: seq<TableSpec>): Schema {
    Schema(Map((spec: TableSpec) => Ascii(spec.name), specs), (t: nat, k: Bytes) => KeyOk(specs, t, k),
           (t: nat, k: Bytes, r: Bytes) => RowOk(specs, t, k, r))
  }

  ghost function CoveredSchema(): Schema {
    SchemaOf(Registry())
  }

  // ---- the registry is a well-formed schema ----

  function Mark(name: string): int {
    if |name| < 2 then 0 else |name| * 0x10000 + (name[0] as int % 256) * 0x100 + name[1] as int % 256
  }

  /** A number that differs for all seventeen names. */
  function MarkAt(t: nat): int {
    match t
    case 0 => 880498
    case 1 => 942453
    case 2 => 357473
    case 3 => 946284
    case 4 => 815212
    case 5 => 945509
    case 6 => 420965
    case 7 => 484453
    case 8 => 620143
    case 9 => 1336178
    case 10 => 942439
    case 11 => 942945
    case 12 => 1663858
    case 13 => 815221
    case 14 => 1467247
    case 15 => 1011045
    case 16 => 947045
    case _ => -1
  }

  lemma EarlyMarks(t: nat)
    requires 0 <= t < 6 && t < |Registry()|
    ensures Mark(Registry()[t].name) == MarkAt(t)
  {
  }

  lemma MiddleMarks(t: nat)
    requires 6 <= t < 12 && t < |Registry()|
    ensures Mark(Registry()[t].name) == MarkAt(t)
  {
  }

  lemma LateMarks(t: nat)
    requires 12 <= t < 17 && t < |Registry()|
    ensures Mark(Registry()[t].name) == MarkAt(t)
  {
  }

  lemma Marks(t: nat)
    requires t < |Registry()|
    ensures Mark(Registry()[t].name) == MarkAt(t)
  {
    hide Registry, Mark, MarkAt;
    Seventeen();
    if t < 6 { EarlyMarks(t); } else if t < 12 { MiddleMarks(t); } else { LateMarks(t); }
  }

  lemma SameAsciiSameMark(a: string, b: string)
    requires Ascii(a) == Ascii(b)
    ensures Mark(a) == Mark(b)
  {
    assert |a| == |Ascii(a)| == |Ascii(b)| == |b|;
    if |a| >= 2 {
      assert Ascii(a)[0] == Ascii(b)[0] && Ascii(a)[1] == Ascii(b)[1];
    }
  }

  lemma NamesDistinct(i: nat, j: nat)
    requires i < j < |Registry()|
    ensures Ascii(Registry()[i].name) != Ascii(Registry()[j].name)
  {
    hide Ascii, Mark, Registry;
    Marks(i);
    Marks(j);
    Seventeen();
    if Ascii(Registry()[i].name) == Ascii(Registry()[j].name) {
      SameAsciiSameMark(Registry()[i].name, Registry()[j].name);
    }
  }

  lemma Seventeen()
    ensures |Registry()| == 17
  {
  }

  lemma SchemaOfWellFormed(specs: seq<TableSpec>)
    requires forall i, j | 0 <= i < j < |specs| :: Ascii(specs[i].name) != Ascii(specs[j].name)
    ensures WellFormed(SchemaOf(specs))
  {
    hide Print, Canonical, Ascii;
    var s := SchemaOf(specs);
    forall t: nat, k | s.keyOk(t, k) ensures IsArrayText(k) {
      var items :| IsKeyOf(specs[t], k, items);
    }
    forall t: nat, k, r | s.rowOk(t, k, r) ensures IsObjectText(r) {
      var items, members :| IsKeyOf(specs[t], k, items) && IsRowOf(specs[t], items, r, members);
    }
  }

  /** Everything proved about well-formed schemas holds of the seventeen covered tables. */
  lemma CoveredSchemaWellFormed()
    ensures WellFormed(CoveredSchema()) && |CoveredSchema().names| == 17
  {
    hide Registry, Ascii, WellFormed;
    Seventeen();
    forall i, j | 0 <= i < j < |Registry()| ensures Ascii(Registry()[i].name) != Ascii(Registry()[j].name) { NamesDistinct(i, j); }
    SchemaOfWellFormed(Registry());
  }

  /** A row fixes its primary key: no row is valid under two keys of a table. */
  lemma RowFixesKey(specs: seq<TableSpec>, t: nat, k: Bytes, l: Bytes, row: Bytes)
    requires RowOk(specs, t, k, row) && RowOk(specs, t, l, row)
    ensures k == l
  {
    hide Print, Canonical, Ascii;
    var spec := specs[t];
    var xs, ms :| IsKeyOf(spec, k, xs) && IsRowOf(spec, xs, row, ms);
    var ys, ns :| IsKeyOf(spec, l, ys) && IsRowOf(spec, ys, row, ns);
    PrintInjective(Obj(ms), Obj(ns));
    forall i | 0 <= i < |xs| ensures xs[i] == ys[i] {
      assert Find(ms, Ascii(spec.key[i].name)) == Some(xs[i]);
      assert Find(ns, Ascii(spec.key[i].name)) == Some(ys[i]);
    }
    assert xs == ys;
  }

  /** A valid key has exactly one reading as components. */
  lemma KeyReadingUnique(spec: TableSpec, key: Bytes, xs: seq<Json>, ys: seq<Json>)
    requires IsKeyOf(spec, key, xs) && IsKeyOf(spec, key, ys)
    ensures xs == ys
  {
    hide Print, Canonical;
    PrintInjective(Arr(xs), Arr(ys));
  }
}
