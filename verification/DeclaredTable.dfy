/**
 * The shape table the program ships, and what the projection promises on it.
 */
module DeclaredTable {
  import opened Common
  import opened DeclaredShapes

  /** A member that holds one value, or an array of values, of another declared type. */
  datatype Nested = One(name: string) | Many(name: string)

  /** The two forms of entry: an allow-list, and a tagged union of allow-lists of scalars. */
  datatype Declaration =
    | AllowList(scalars: seq<string>, nested: map<string, Nested>)
    | Tags(tag: string, arms: map<string, seq<string>>)

  function Declarations(): map<string, Declaration> {
    map[
      "AcsEndpoint" := AllowList(["binding", "index", "is_default", "url"], map[]),
      "AttributeMapping" := AllowList(["name_format", "saml_name", "source"], map[]),
      "DirectoryConfig" := AllowList(
        ["base_dn", "bind_dn", "created_at", "enabled", "group_base_dn", "group_filter",
         "group_member_attribute", "group_nesting_depth", "id", "jit_provisioning", "kind", "start_tls",
         "sync_interval_secs", "tenant_id", "trust_anchors_pem", "updated_at", "url", "user_filter"],
        map["group_mappings" := Many("GroupMapping"), "user_attribute_map" := One("UserAttributeMap")]),
      "DirectoryLinkResult" := AllowList(
        ["certificates_revoked", "directory_external_id", "user_id", "was_already_linked",
         "webauthn_credentials_deleted"],
        map[]),
      "DirectorySyncStatus" := AllowList(
        ["full_required", "has_watermark", "last_attempt_at", "last_full_run_at", "last_result"], map[]),
      "GroupMapping" := AllowList(["directory_group_dn", "group_id"], map[]),
      "SamlIdpCredential" := AllowList(
        ["certificate_pem", "created_at", "fingerprint", "id", "issuer_ca_id", "not_after", "not_before",
         "retired_at", "serial", "status", "tenant_id"],
        map[]),
      "SamlIdpCredentialPromotion" := AllowList(
        [],
        map["active" := One("SamlIdpCredential"), "retired" := One("SamlIdpCredential")]),
      "SamlIdpInfo" := AllowList(
        ["active_credential_id", "entity_id", "metadata_served", "metadata_url", "next_credential_id",
         "saml_available", "saml_idp_enabled", "slo_url", "sso_url", "tenant_id"],
        map[]),
      "SamlServiceProvider" := AllowList(
        ["allow_idp_initiated", "allowed_groups", "created_at", "display_name", "enabled",
         "encrypt_assertions", "entity_id", "id", "name_id_format", "sign_responses", "slo_binding",
         "slo_url", "sp_encryption_cert_pem", "sp_signing_cert_pem", "tenant_id", "updated_at",
         "want_authn_requests_signed"],
        map["acs_urls" := Many("AcsEndpoint"), "attribute_mappings" := Many("AttributeMapping")]),
      "SamlServiceProviderInput" := AllowList(
        ["allow_idp_initiated", "allowed_groups", "display_name", "enabled", "encrypt_assertions",
         "entity_id", "name_id_format", "sign_responses", "slo_binding", "slo_url", "sp_encryption_cert_pem",
         "sp_signing_cert_pem", "want_authn_requests_signed"],
        map["acs_urls" := Many("AcsEndpoint"), "attribute_mappings" := Many("AttributeMapping")]),
      "SamlSpMetadataDraft" := AllowList(
        ["encryption_certificate_fingerprint", "signing_certificate_fingerprint", "warnings"],
        map["service_provider" := One("SamlServiceProviderInput")]),
      "ScimReconcileAccepted" := AllowList(["status", "target_id"], map[]),
      "ScimTargetAuth" := Tags("type", map[
        "bearer" := ["type"],
        "oauth2_client_credentials" := ["type", "client_id", "scope", "token_url"]]),
      "ScimTargetDeliveryState" := AllowList(
        ["consecutive_failures", "dead_lettered_total", "last_failure_at", "last_failure_reason",
         "last_reconciled_at", "last_success_at"],
        map[]),
      "ScimTargetResponse" := AllowList(
        ["base_url", "created_at", "deprovision", "enabled", "id", "name", "push_groups", "tenant_id",
         "updated_at", "user_name_from"],
        map["auth" := One("ScimTargetAuth"), "scope" := One("ScimTargetScope"),
            "state" := One("ScimTargetDeliveryState")]),
      "ScimTargetScope" := Tags("type", map[
        "all_users" := ["type"],
        "groups" := ["type", "group_ids"]]),
      "SsfStream" := AllowList(
        ["audience", "authorization_header_set", "created_at", "delivery_method", "description",
         "endpoint_url", "events_allowed", "events_delivered", "events_requested", "id",
         "last_verification_at", "receiver_client_id", "status", "status_actor", "status_reason",
         "subject_format", "tenant_id", "transmitter_active", "transmitter_inactive_reason", "updated_at"],
        map[]),
      "UserAttributeMap" := AllowList(["display_name", "email", "external_id", "username"], map[])
    ]
  }

  function Scalars(names: seq<string>): map<string, Shape> {
    map n | n in names :: Any
  }

  function NestedShape(declared: Nested): Shape {
    if declared.One? then Ref(declared.name) else ArrayOf(Ref(declared.name))
  }

  function ShapeOf(d: Declaration): Shape {
    match d
    case AllowList(scalars, nested) =>
      Members(Scalars(scalars) +
              map n | n in nested :: NestedShape(nested[n]))
    case Tags(tag, arms) =>
      Union(tag, map a | a in arms :: Members(Scalars(arms[a])))
  }

  function DeclaredShapeTable(): Table {
    map n | n in Declarations() :: ShapeOf(Declarations()[n])
  }

  /** Every arm declares the tag. */
  predicate TagDeclared(d: Declaration) {
    d.Tags? ==> forall a :: a in d.arms ==> d.tag in d.arms[a]
  }

  lemma ShapesArePlain(d: Declaration)
    ensures Plain(ShapeOf(d))
  {
  }

  /** Whatever the table: the shape of a declaration keeps its tags exactly when the arms declare them. */
  lemma ShapesAreTagged(t: Table, d: Declaration)
    requires NeverReturns(t)
    ensures Tagged(t, ShapeOf(d), None) <==> TagDeclared(d)
  {
    if d.Tags? {
      UnionsAreTagged(t, d);
    } else {
      var members := ShapeOf(d).members;
      forall n | n in members
        ensures Tagged(t, members[n], None)
      {
        assert members[n].ArrayOf? ==> Tagged(t, members[n].item, None);
      }
    }
  }

  lemma UnionsAreTagged(t: Table, d: Declaration)
    requires NeverReturns(t) && d.Tags?
    ensures Tagged(t, ShapeOf(d), None) <==> TagDeclared(d)
  {
    var arms := ShapeOf(d).arms;
    forall a | a in arms
      ensures Tagged(t, arms[a], Some((d.tag, a))) && (ArmKeeps(t, arms[a], d.tag, a) <==> d.tag in d.arms[a])
    {
      ScalarsAreTagged(t, d.arms[a], d.tag, a);
    }
  }

  lemma ScalarsAreTagged(t: Table, names: seq<string>, tag: string, a: string)
    requires NeverReturns(t)
    ensures Tagged(t, Members(Scalars(names)), Some((tag, a)))
    ensures ArmKeeps(t, Members(Scalars(names)), tag, a) <==> tag in names
  {
  }

  lemma DeclaredTagsAreDeclared(name: string)
    requires name in Declarations()
    ensures TagDeclared(Declarations()[name])
  {
  }

  /** No reference of the table falls back to keeping the value as read. */
  lemma ReferencesResolve(name: string, member: string)
    requires name in Declarations() && Declarations()[name].AllowList?
    requires member in Declarations()[name].nested
    ensures Declarations()[name].nested[member].name in DeclaredShapeTable()
  {
  }

  lemma TableNeverReturns()
    ensures NeverReturns(DeclaredShapeTable())
  {
    var t := DeclaredShapeTable();
    forall n | n in t
      ensures Plain(t[n])
    {
      ShapesArePlain(Declarations()[n]);
    }
    PlainTablesNeverReturn(t);
  }

  /** Scrubbing a response of any declared type twice is scrubbing it once. */
  lemma ScrubIsIdempotent(name: string, v: Json)
    requires name in DeclaredShapeTable()
    ensures NeverReturns(DeclaredShapeTable())
    ensures Idempotent(DeclaredShapeTable(), v, DeclaredShapeTable()[name])
  {
    var t := DeclaredShapeTable();
    TableNeverReturns();
    forall n | n in t
      ensures Tagged(t, t[n], None)
    {
      DeclaredTagsAreDeclared(n);
      ShapesAreTagged(t, Declarations()[n]);
    }
    KeepTwice(t, v, t[name], None);
  }

  // ---------- Which members survive ----------

  /** The members of `kept` are those of `v` that are among the names. */
  predicate KeepsOnly(kept: Json, v: Json, names: set<string>) {
    kept.Obj? && v.Obj? && kept.members.Keys == v.members.Keys * names
  }

  ghost predicate ScrubbedAs(t: Table, kept: Json, v: Json, declared: Nested)
    requires NeverReturns(t)
  {
    match declared
    case One(name) => name in t && kept == Keep(t, v, t[name])
    case Many(name) =>
      && name in t
      && if !v.Arr? then kept == v
         else kept.Arr? && |kept.items| == |v.items| &&
              forall i :: 0 <= i < |v.items| ==> kept.items[i] == Keep(t, v.items[i], t[name])
  }

  /** Of an object: its declared members, scalars unchanged and the others scrubbed by their own type. */
  ghost predicate ScrubbedToAllowList(t: Table, kept: Json, v: Json, scalars: seq<string>, nested: map<string, Nested>)
    requires NeverReturns(t)
  {
    && KeepsOnly(kept, v, (set n | n in scalars) + nested.Keys)
    && (forall n :: n in kept.members && n !in nested ==> kept.members[n] == v.members[n])
    && (forall n :: n in kept.members && n in nested ==> ScrubbedAs(t, kept.members[n], v.members[n], nested[n]))
  }

  /** Of a union: the members of the arm that its tag names, unchanged, or the tag alone. */
  ghost predicate ScrubbedToArm(kept: Json, v: Json, tag: string, arms: map<string, seq<string>>)
    requires v.Obj?
  {
    if tag in v.members && v.members[tag].Str? && v.members[tag].s in arms then
      && KeepsOnly(kept, v, set n | n in arms[v.members[tag].s])
      && forall n :: n in kept.members ==> kept.members[n] == v.members[n]
    else kept == Obj(map[tag := if tag in v.members then v.members[tag] else Undefined])
  }

  lemma AllowListScrubs(t: Table, v: Json, scalars: seq<string>, nested: map<string, Nested>)
    requires NeverReturns(t) && v.Obj? && forall n :: n in nested ==> nested[n].name in t
    ensures ScrubbedToAllowList(t, Keep(t, v, ShapeOf(AllowList(scalars, nested))), v, scalars, nested)
  {
    var shape := ShapeOf(AllowList(scalars, nested));
    var kept := Keep(t, v, shape);
    forall n | n in kept.members && n in nested
      ensures ScrubbedAs(t, kept.members[n], v.members[n], nested[n])
    {
      assert kept.members[n] == Keep(t, v.members[n], shape.members[n]);
      NestedScrubs(t, v.members[n], nested[n]);
    }
  }

  lemma NestedScrubs(t: Table, v: Json, declared: Nested)
    requires NeverReturns(t) && declared.name in t
    ensures ScrubbedAs(t, Keep(t, v, NestedShape(declared)), v, declared)
  {
    if declared.One? {
      RefScrubs(t, v, declared.name);
    } else {
      ItemsScrub(t, v, declared.name);
    }
  }

  lemma ItemsScrub(t: Table, v: Json, name: string)
    requires NeverReturns(t) && name in t
    ensures ScrubbedAs(t, Keep(t, v, ArrayOf(Ref(name))), v, Many(name))
  {
    if v.Arr? {
      var kept := Keep(t, v, ArrayOf(Ref(name)));
      assert |kept.items| == |v.items|;
      forall i | 0 <= i < |v.items|
        ensures kept.items[i] == Keep(t, v.items[i], t[name])
      {
        assert kept.items[i] == Keep(t, v.items[i], Ref(name));
        RefScrubs(t, v.items[i], name);
      }
    }
  }

  lemma RefScrubs(t: Table, v: Json, name: string)
    requires NeverReturns(t) && name in t
    ensures Keep(t, v, Ref(name)) == Keep(t, v, t[name])
  {
  }

  lemma UnionScrubs(t: Table, v: Json, tag: string, arms: map<string, seq<string>>)
    requires NeverReturns(t) && v.Obj?
    ensures ScrubbedToArm(Keep(t, v, ShapeOf(Tags(tag, arms))), v, tag, arms)
  {
    var shape := ShapeOf(Tags(tag, arms));
    if tag in v.members && v.members[tag].Str? && v.members[tag].s in arms {
      var a := v.members[tag].s;
      assert shape.arms[a] == Members(Scalars(arms[a]));
      assert Keep(t, v, shape) == Keep(t, v, shape.arms[a]);
    }
  }

  /**
   * Scrubbing an object of a declared type keeps exactly its declared members, each scalar unchanged and
   * each nested value, or each item of a nested array, scrubbed as its own declared type.
   */
  lemma ScrubKeepsTheDeclared(name: string, v: Json)
    requires name in Declarations() && v.Obj?
    ensures NeverReturns(DeclaredShapeTable()) && name in DeclaredShapeTable()
    ensures var t, d := DeclaredShapeTable(), Declarations()[name];
            match d
            case AllowList(scalars, nested) => ScrubbedToAllowList(t, Keep(t, v, t[name]), v, scalars, nested)
            case Tags(tag, arms) => ScrubbedToArm(Keep(t, v, t[name]), v, tag, arms)
  {
    var t := DeclaredShapeTable();
    TableNeverReturns();
    match Declarations()[name]
    case AllowList(scalars, nested) =>
      forall n | n in nested
        ensures nested[n].name in t
      {
        ReferencesResolve(name, n);
      }
      AllowListScrubs(t, v, scalars, nested);
    case Tags(tag, arms) =>
      UnionScrubs(t, v, tag, arms);
  }
}
