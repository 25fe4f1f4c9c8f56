/**
 Removing runtime-managed users from a kernel configuration before it is hashed
 (internal/agent/core_runtime.go), so that pushing users to the running kernel
 does not look like a changed configuration.
 */
module OperationalConfig {

  datatype Json =
    | Null | Bool(value: bool) | Number(digits: string) | Text(text: string)
    | Array(items: seq<Json>) | Object(fields: map<string, Json>)

  type Fields = map<string, Json>

  // Go's `x, _ := m[key].(T)`: the zero value where the key or the type is missing
  function TextAt(m: Fields, key: string): string {
    if key in m && m[key].Text? then m[key].text else ""
  }

  function ArrayAt(m: Fields, key: string): seq<Json> {
    if key in m && m[key].Array? then m[key].items else []
  }

  function ObjectAt(m: Fields, key: string): Fields {
    if key in m && m[key].Object? then m[key].fields else map[]
  }

  function FieldsOf(j: Json): Fields {
    if j.Object? then j.fields else map[]
  }

  /** The non-empty texts of a list. */
  function Texts(raw: seq<Json>): set<string> {
    if raw == [] then {}
    else
      var last := raw[|raw| - 1];
      Texts(raw[..|raw| - 1]) + if last.Text? && last.text != "" then {last.text} else {}
  }

  /** The inbounds whose users are managed at run time. */
  function Tags(metadata: Fields): set<string> {
    Texts(ArrayAt(ObjectAt(metadata, "runtime_users"), "inbounds"))
  }

  predicate Declared(inbound: Json, tags: set<string>) {
    TextAt(FieldsOf(inbound), "tag") in tags
  }

  predicate Selects(outbound: Json, tags: set<string>) {
    var fields := FieldsOf(outbound);
    TextAt(fields, "type") == "user-selector" && exists t :: t in tags && TextAt(fields, "tag") == "userselector-" + t
  }

  function WithoutUsers(j: Json): Json {
    if j.Object? then Object(j.fields - {"users"}) else j
  }

  function StripInbound(j: Json, tags: set<string>): Json {
    if Declared(j, tags) then WithoutUsers(j) else j
  }

  function StripOutbound(j: Json, tags: set<string>): Json {
    if Selects(j, tags) then WithoutUsers(j) else j
  }

  function UserNames(users: seq<Json>): set<string> {
    if users == [] then {}
    else
      var name := TextAt(FieldsOf(users[|users| - 1]), "name");
      UserNames(users[..|users| - 1]) + if name != "" then {name} else {}
  }

  /** The names of the users on declared inbounds. */
  function Names(inbounds: seq<Json>, tags: set<string>): set<string> {
    if inbounds == [] then {}
    else
      var last := inbounds[|inbounds| - 1];
      Names(inbounds[..|inbounds| - 1], tags)
      + if Declared(last, tags) then UserNames(ArrayAt(FieldsOf(last), "users")) else {}
  }

  function StripLimits(metadata: Fields, names: set<string>): Fields {
    var limits := ObjectAt(metadata, "rate_limits");
    if "users" !in limits || !limits["users"].Object? then metadata
    else
      var left := limits["users"].fields - names;
      var rest := if names == {} || left == map[] then limits - {"users"} else limits["users" := Object(left)];
      metadata["rate_limits" := Object(rest)]
  }

  function StripInbounds(items: seq<Json>, tags: set<string>): seq<Json> {
    seq(|items|, i requires 0 <= i < |items| => StripInbound(items[i], tags))
  }

  function StripOutbounds(items: seq<Json>, tags: set<string>): seq<Json> {
    seq(|items|, i requires 0 <= i < |items| => StripOutbound(items[i], tags))
  }

  function WithItems(root: Fields, key: string, items: seq<Json>): Fields {
    if key in root && root[key].Array? then root[key := Array(items)] else root
  }

  /** stripRuntimeUserFields on a root that holds its metadata under "_oboard". */
  function Strip(root: Fields): Fields {
    var metadata := ObjectAt(root, "_oboard");
    var tags := Tags(metadata);
    if tags == {} then root
    else
      var inbounds, outbounds := ArrayAt(root, "inbounds"), ArrayAt(root, "outbounds");
      var limited := root["_oboard" := Object(StripLimits(metadata, Names(inbounds, tags)))];
      var stripped := WithItems(limited, "inbounds", StripInbounds(inbounds, tags));
      WithItems(stripped, "outbounds", StripOutbounds(outbounds, tags))
  }

  // --- what is left of the metadata (internal/authorization/identity.go) ------

  const IDENTITY_FIELDS :=
    ["user_id", "inbound_id", "path_id", "device_id_hash", "credential_epoch", "credential_status"]

  /** Metadata that is pushed to the running kernel and stays out of the digest. */
  const PUSHED := {"connection_audit", "authorization"}

  const SPECIAL := {"_oboard", "inbounds", "outbounds"}

  function Entries(metadata: Fields, group: string): Fields {
    ObjectAt(ObjectAt(metadata, "rate_limits"), group)
  }

  function AuthorizationKey(entry: Json): string {
    TextAt(FieldsOf(entry), "authorization_key")
  }

  /** The key together with those of the wanted fields that are there. */
  function Picked(fields: Fields, wanted: seq<string>, key: string): Fields {
    if wanted == [] then map["authorization_key" := Text(key)]
    else
      var last, picked := wanted[|wanted| - 1], Picked(fields, wanted[..|wanted| - 1], key);
      if last in fields then picked[last := fields[last]] else picked
  }

  /** The part of a rate limit that binds a credential. */
  function Identity(entry: Json): Json {
    Object(Picked(FieldsOf(entry), IDENTITY_FIELDS, AuthorizationKey(entry)))
  }

  /** Of a group of rate limits, the identities that carry an authorization key. */
  function Installed(entries: Fields): Fields {
    map name | name in entries && AuthorizationKey(entries[name]) != "" :: Identity(entries[name])
  }

  function WithGroup(installed: Fields, group: string, keys: Fields): Fields {
    if keys == map[] then installed else installed[group := Object(keys)]
  }

  function Groups(users: Fields, inbounds: Fields): Fields {
    WithGroup(WithGroup(map[], "users", users), "inbounds", inbounds)
  }

  function Retain(metadata: Fields): Fields {
    var users, inbounds := Installed(Entries(metadata, "users")), Installed(Entries(metadata, "inbounds"));
    WithGroup(metadata - {"rate_limits"}, "rate_limits", Groups(users, inbounds))
  }

  /** The form of a configuration that is hashed. */
  function Normalize(root: Fields): Fields {
    if "_oboard" !in root || !root["_oboard"].Object? then root
    else
      var stripped := Strip(root);
      WithGroup(stripped - {"_oboard"}, "_oboard", Retain(ObjectAt(stripped, "_oboard")) - PUSHED)
  }

  // ---------------------------------------------------------------------------
  // Configurations that differ only in runtime users
  // ---------------------------------------------------------------------------

  ghost predicate SameButUsers(x: Json, y: Json) {
    x.Object? && y.Object? && x.fields - {"users"} == y.fields - {"users"}
  }

  ghost predicate InboundsVary(xs: seq<Json>, ys: seq<Json>, tags: set<string>) {
    |xs| == |ys|
    && forall i :: 0 <= i < |xs| ==> xs[i] == ys[i] || (Declared(xs[i], tags) && SameButUsers(xs[i], ys[i]))
  }

  ghost predicate OutboundsVary(xs: seq<Json>, ys: seq<Json>, tags: set<string>) {
    |xs| == |ys| && forall i :: 0 <= i < |xs| ==> xs[i] == ys[i] || (Selects(xs[i], tags) && SameButUsers(xs[i], ys[i]))
  }

  /** One side has a list exactly if the other has; what is not a list is the same. */
  ghost predicate SameShape(a: Fields, b: Fields, key: string) {
    && (key in a <==> key in b)
    && (key in a ==> a[key].Array? == b[key].Array? && (!a[key].Array? ==> a[key] == b[key]))
  }

  /** Rate limits that belong to nobody on a declared inbound. */
  function Foreign(metadata: Fields, names: set<string>): Fields {
    Entries(metadata, "users") - names
  }

  /**
   Metadata that agree up to what is pushed to the running kernel: quota state,
   the limits of runtime users, and the runtime-only members. Rate limits may be
   absent or malformed on either side.
   */
  ghost predicate MetadataVary(a: Fields, namesA: set<string>, b: Fields, namesB: set<string>) {
    && a - PUSHED - {"rate_limits"} == b - PUSHED - {"rate_limits"}
    && Installed(Foreign(a, namesA)) == Installed(Foreign(b, namesB))
    && Installed(Entries(a, "inbounds")) == Installed(Entries(b, "inbounds"))
  }

  /** Metadata are absent or an object. */
  predicate Regular(root: Fields) {
    "_oboard" in root ==> root["_oboard"].Object?
  }

  function RuntimeNames(root: Fields): set<string> {
    Names(ArrayAt(root, "inbounds"), Tags(ObjectAt(root, "_oboard")))
  }

  /** `a` and `b` agree except for users of declared inbounds, their selectors, and pushed metadata. */
  ghost predicate OnlyUsersDiffer(a: Fields, b: Fields) {
    && Regular(a) && Regular(b) && SameShape(a, b, "inbounds") && SameShape(a, b, "outbounds")
    && a - SPECIAL == b - SPECIAL
    && MetadataVary(ObjectAt(a, "_oboard"), RuntimeNames(a), ObjectAt(b, "_oboard"), RuntimeNames(b))
    && InboundsVary(ArrayAt(a, "inbounds"), ArrayAt(b, "inbounds"), Tags(ObjectAt(a, "_oboard")))
    && OutboundsVary(ArrayAt(a, "outbounds"), ArrayAt(b, "outbounds"), Tags(ObjectAt(a, "_oboard")))
  }

  lemma VaryingInboundsStripAlike(xs: seq<Json>, ys: seq<Json>, tags: set<string>)
    requires InboundsVary(xs, ys, tags)
    ensures StripInbounds(xs, tags) == StripInbounds(ys, tags)
  {
    forall i | 0 <= i < |xs| ensures StripInbound(xs[i], tags) == StripInbound(ys[i], tags) {
      if xs[i] != ys[i] {
        TagSurvives(xs[i], ys[i], "tag");
      }
    }
  }

  lemma VaryingOutboundsStripAlike(xs: seq<Json>, ys: seq<Json>, tags: set<string>)
    requires OutboundsVary(xs, ys, tags)
    ensures StripOutbounds(xs, tags) == StripOutbounds(ys, tags)
  {
    forall i | 0 <= i < |xs| ensures StripOutbound(xs[i], tags) == StripOutbound(ys[i], tags) {
      if xs[i] != ys[i] {
        TagSurvives(xs[i], ys[i], "tag");
        TagSurvives(xs[i], ys[i], "type");
      }
    }
  }

  lemma TagSurvives(x: Json, y: Json, key: string)
    requires SameButUsers(x, y) && key != "users"
    ensures TextAt(x.fields, key) == TextAt(y.fields, key)
  {
    assert key in x.fields <==> key in x.fields - {"users"};
    assert key in y.fields <==> key in y.fields - {"users"};
    if key in x.fields {
      assert x.fields[key] == (x.fields - {"users"})[key] == (y.fields - {"users"})[key] == y.fields[key];
    }
  }

  // --- the metadata that reach the digest -------------------------------------

  /** After stripping, a group of users is empty unless a runtime user is named; inbounds are not touched. */
  lemma StrippedEntries(m: Fields, names: set<string>)
    ensures var m' := StripLimits(m, names);
            && m' - {"rate_limits"} == m - {"rate_limits"}
            && Entries(m', "users") == (if names == {} then map[] else Foreign(m, names))
            && Entries(m', "inbounds") == Entries(m, "inbounds")
  {
    var limits := ObjectAt(m, "rate_limits");
    if "users" in limits && limits["users"].Object? {
      assert "rate_limits" in m && m["rate_limits"].Object?;
    }
  }

  /** The metadata part of the normal form. */
  function Kept(m: Fields, names: set<string>, declared: bool): Fields {
    Retain(if declared then StripLimits(m, names) else m) - PUSHED
  }

  /** The identities of users that reach the digest. */
  function KeptUsers(m: Fields, names: set<string>, declared: bool): Fields {
    if declared && names == {} then map[] else Installed(Foreign(m, names))
  }

  lemma KeptByGroups(m: Fields, names: set<string>, declared: bool)
    requires declared || names == {}
    ensures Kept(m, names, declared) ==
            WithGroup(m - PUSHED - {"rate_limits"}, "rate_limits",
              Groups(KeptUsers(m, names, declared), Installed(Entries(m, "inbounds"))))
  {
    hide Installed, StripLimits, Entries;
    StrippedEntries(m, names);
    assert Foreign(m, {}) == Entries(m, "users");
    assert m - {"rate_limits"} - PUSHED == m - PUSHED - {"rate_limits"};
    assert Installed(map[]) == map[] by { NothingInstalled(); }
  }

  lemma NothingInstalled()
    ensures Installed(map[]) == map[]
  {
  }

  /** Putting groups back together loses nothing. */
  lemma GroupsDetermine(inbounds: Fields, x: Fields, y: Fields)
    ensures Groups(x, inbounds) == Groups(y, inbounds) <==> x == y
  {
    var p, q := Groups(x, inbounds), Groups(y, inbounds);
    assert "users" in p <==> x != map[];
    assert "users" in q <==> y != map[];
    assert x != map[] ==> p["users"] == Object(x);
    assert y != map[] ==> q["users"] == Object(y);
  }

  lemma SameTags(a: Fields, b: Fields)
    requires a - PUSHED - {"rate_limits"} == b - PUSHED - {"rate_limits"}
    ensures Tags(a) == Tags(b)
  {
    var x, y := a - PUSHED - {"rate_limits"}, b - PUSHED - {"rate_limits"};
    assert "runtime_users" in a <==> "runtime_users" in x;
    assert "runtime_users" in b <==> "runtime_users" in y;
    if "runtime_users" in a {
      assert a["runtime_users"] == x["runtime_users"] == y["runtime_users"] == b["runtime_users"];
    }
  }

  /**
   Varying metadata reach the digest alike exactly if both sides name a runtime
   user, neither does, or no foreign identity is installed.
   */
  lemma VaryingMetadataKeptAlikeIff(a: Fields, namesA: set<string>, b: Fields, namesB: set<string>, declared: bool)
    requires MetadataVary(a, namesA, b, namesB) && (declared || namesA == namesB == {})
    ensures Kept(a, namesA, declared) == Kept(b, namesB, declared) <==>
            ((namesA == {}) == (namesB == {}) || Installed(Foreign(a, namesA)) == map[])
  {
    hide Kept, Installed, Foreign, Entries;
    KeptByGroups(a, namesA, declared);
    KeptByGroups(b, namesB, declared);
    var users, users' := KeptUsers(a, namesA, declared), KeptUsers(b, namesB, declared);
    var inbounds := Installed(Entries(a, "inbounds"));
    GroupsDetermine(inbounds, users, users');
    GroupDetermines(a - PUSHED - {"rate_limits"}, "rate_limits", Groups(users, inbounds), Groups(users', inbounds));
  }

  function NewList(j: Json, items: seq<Json>): Json {
    if j.Array? then Array(items) else j
  }

  /** A field of the normal form that holds a list. */
  function ListField(root: Fields, key: string, items: seq<Json>): Fields {
    if key in root then map[key := NewList(root[key], items)] else map[]
  }

  /** The normal form without its metadata. */
  function Body(root: Fields, tags: set<string>): Fields {
    (root - SPECIAL)
    + ListField(root, "inbounds", StripInbounds(ArrayAt(root, "inbounds"), tags))
    + ListField(root, "outbounds", StripOutbounds(ArrayAt(root, "outbounds"), tags))
  }

  lemma StrippedBody(root: Fields)
    requires Tags(ObjectAt(root, "_oboard")) != {}
    ensures var m := ObjectAt(root, "_oboard");
            && Strip(root) - {"_oboard"} == Body(root, Tags(m))
            && ObjectAt(Strip(root), "_oboard") == StripLimits(m, RuntimeNames(root))
  {
    hide StripLimits, StripInbounds, StripOutbounds, Tags, Names;
  }

  lemma UnstrippedBody(root: Fields)
    requires Tags(ObjectAt(root, "_oboard")) == {}
    ensures Strip(root) == root && Body(root, {}) == root - {"_oboard"} && RuntimeNames(root) == {}
  {
    hide StripInbounds, StripOutbounds, Tags, Names, RuntimeNames;
    NothingDeclared(root);
  }

  /** The normal form, part by part. */
  lemma NormalParts(root: Fields)
    requires Regular(root)
    ensures var m := ObjectAt(root, "_oboard");
            Normalize(root) == WithGroup(Body(root, Tags(m)), "_oboard", Kept(m, RuntimeNames(root), Tags(m) != {}))
  {
    hide Strip, StripLimits, Body, Tags, Retain, RuntimeNames;
    var m := ObjectAt(root, "_oboard");
    if Tags(m) == {} {
      UnstrippedBody(root);
    } else {
      StrippedBody(root);
    }
    if "_oboard" !in root {
      BareMetadata();
      assert root - {"_oboard"} == root;
    }
  }

  lemma BareMetadata()
    ensures Tags(map[]) == {} && Kept(map[], {}, false) == map[]
  {
  }

  lemma {:induction false} NoTagsNoNames(inbounds: seq<Json>)
    ensures Names(inbounds, {}) == {} && StripInbounds(inbounds, {}) == inbounds
  {
    if inbounds != [] {
      NoTagsNoNames(inbounds[..|inbounds| - 1]);
    }
  }

  lemma NothingDeclared(root: Fields)
    requires Tags(ObjectAt(root, "_oboard")) == {}
    ensures RuntimeNames(root) == {}
    ensures StripInbounds(ArrayAt(root, "inbounds"), {}) == ArrayAt(root, "inbounds")
    ensures StripOutbounds(ArrayAt(root, "outbounds"), {}) == ArrayAt(root, "outbounds")
  {
    NoTagsNoNames(ArrayAt(root, "inbounds"));
  }

  lemma ListsAgree(a: Fields, b: Fields, key: string, xs: seq<Json>, ys: seq<Json>)
    requires SameShape(a, b, key) && xs == ys
    ensures ListField(a, key, xs) == ListField(b, key, ys)
  {
  }

  lemma GroupDetermines(rest: Fields, key: string, x: Fields, y: Fields)
    requires key !in rest
    ensures WithGroup(rest, key, x) == WithGroup(rest, key, y) <==> x == y
  {
    var u, v := WithGroup(rest, key, x), WithGroup(rest, key, y);
    assert x != map[] ==> u[key] == Object(x);
    assert y != map[] ==> v[key] == Object(y);
  }

  /**
   Exactly when two configurations that differ only in runtime users have the
   same digest: both name such a user or neither does, or no foreign user limit
   carries an authorization key.
   */
  lemma RuntimeUsersDoNotShowIff(a: Fields, b: Fields)
    requires OnlyUsersDiffer(a, b)
    ensures Normalize(a) == Normalize(b) <==>
            || (RuntimeNames(a) == {}) == (RuntimeNames(b) == {})
            || Installed(Foreign(ObjectAt(a, "_oboard"), RuntimeNames(a))) == map[]
  {
    hide Normalize, Kept, StripInbounds, StripOutbounds, Tags, RuntimeNames, Foreign, ArrayAt, Installed;
    var ma, mb := ObjectAt(a, "_oboard"), ObjectAt(b, "_oboard");
    var tags := Tags(ma);
    SameTags(ma, mb);
    NormalParts(a);
    NormalParts(b);
    VaryingInboundsStripAlike(ArrayAt(a, "inbounds"), ArrayAt(b, "inbounds"), tags);
    VaryingOutboundsStripAlike(ArrayAt(a, "outbounds"), ArrayAt(b, "outbounds"), tags);
    ListsAgree(a, b, "inbounds",
      StripInbounds(ArrayAt(a, "inbounds"), tags), StripInbounds(ArrayAt(b, "inbounds"), tags));
    ListsAgree(a, b, "outbounds",
      StripOutbounds(ArrayAt(a, "outbounds"), tags), StripOutbounds(ArrayAt(b, "outbounds"), tags));
    if tags == {} {
      NothingDeclared(a);
      NothingDeclared(b);
    }
    VaryingMetadataKeptAlikeIff(ma, RuntimeNames(a), mb, RuntimeNames(b), tags != {});
    GroupDetermines(Body(a, tags), "_oboard",
      Kept(ma, RuntimeNames(a), tags != {}), Kept(mb, RuntimeNames(b), tags != {}));
  }

  // ---------------------------------------------------------------------------
  // The digest misses nothing else
  // ---------------------------------------------------------------------------

  lemma {:induction false} TextsAre(raw: seq<Json>, t: string)
    ensures t in Texts(raw) <==> t != "" && Text(t) in raw
  {
    if raw != [] {
      TextsAre(raw[..|raw| - 1], t);
      assert raw == raw[..|raw| - 1] + [raw[|raw| - 1]];
    }
  }

  lemma {:induction false} UserNamesAre(users: seq<Json>, name: string)
    ensures name in UserNames(users) <==>
            name != "" && exists i :: 0 <= i < |users| && TextAt(FieldsOf(users[i]), "name") == name
  {
    if users != [] {
      var n := |users| - 1;
      UserNamesAre(users[..n], name);
      assert forall i :: 0 <= i < n ==> users[..n][i] == users[i];
    }
  }

  /** The runtime users are the named users of declared inbounds. */
  lemma {:induction false} NamesAre(inbounds: seq<Json>, tags: set<string>, name: string)
    ensures name in Names(inbounds, tags) <==>
            exists i :: 0 <= i < |inbounds| && Declared(inbounds[i], tags)
                        && name in UserNames(ArrayAt(FieldsOf(inbounds[i]), "users"))
  {
    if inbounds != [] {
      var n := |inbounds| - 1;
      NamesAre(inbounds[..n], tags, name);
      assert forall i :: 0 <= i < n ==> inbounds[..n][i] == inbounds[i];
    }
  }

  /** A bound identity has its key and the identity fields the limit has, as they are. */
  lemma {:induction false} PickedAre(fields: Fields, wanted: seq<string>, key: string, name: string)
    requires "authorization_key" !in wanted
    ensures var picked := Picked(fields, wanted, key);
            && "authorization_key" in picked && picked["authorization_key"] == Text(key)
            && (name != "authorization_key" ==>
                  && (name in picked <==> name in wanted && name in fields)
                  && (name in picked ==> picked[name] == fields[name]))
  {
    if wanted != [] {
      var n := |wanted| - 1;
      assert wanted == wanted[..n] + [wanted[n]];
      PickedAre(fields, wanted[..n], key, name);
    }
  }

  /** A rate limit binds a credential by its key and the six fields that identify it. */
  lemma IdentityHas(entry: Json, name: string)
    requires name != "authorization_key"
    ensures var fields, identity := FieldsOf(entry), FieldsOf(Identity(entry));
            && TextAt(identity, "authorization_key") == TextAt(fields, "authorization_key")
            && (name in identity <==>
                  && name in fields
                  && (name == "user_id" || name == "inbound_id" || name == "path_id" || name == "device_id_hash"
                      || name == "credential_epoch" || name == "credential_status"))
            && (name in identity ==> identity[name] == fields[name])
  {
    hide Picked;
    PickedAre(FieldsOf(entry), IDENTITY_FIELDS, AuthorizationKey(entry), name);
  }

  /** The selector of inbound `t` is the user-selector outbound with its name. */
  lemma SelectsIff(outbound: Json, tags: set<string>)
    ensures Selects(outbound, tags) <==>
              && outbound.Object? && "type" in outbound.fields && outbound.fields["type"] == Text("user-selector")
              && "tag" in outbound.fields && outbound.fields["tag"].Text?
              && exists t :: t in tags && outbound.fields["tag"].text == "userselector-" + t
  {
  }

  /** Stripping takes the users of a declared inbound and nothing else. */
  lemma InboundStripsAlikeIff(x: Json, y: Json, tags: set<string>)
    requires "" !in tags
    ensures StripInbound(x, tags) == StripInbound(y, tags) <==> x == y || (Declared(x, tags) && SameButUsers(x, y))
  {
    if SameButUsers(x, y) {
      TagSurvives(x, y, "tag");
    }
    StrippedText(x, StripInbound(x, tags), "tag");
    StrippedText(y, StripInbound(y, tags), "tag");
  }

  lemma OutboundStripsAlikeIff(x: Json, y: Json, tags: set<string>)
    ensures StripOutbound(x, tags) == StripOutbound(y, tags) <==> x == y || (Selects(x, tags) && SameButUsers(x, y))
  {
    if SameButUsers(x, y) {
      TagSurvives(x, y, "tag");
      TagSurvives(x, y, "type");
    }
    StrippedText(x, StripOutbound(x, tags), "tag");
    StrippedText(y, StripOutbound(y, tags), "tag");
    StrippedText(x, StripOutbound(x, tags), "type");
    StrippedText(y, StripOutbound(y, tags), "type");
    assert Selects(StripOutbound(x, tags), tags) == Selects(x, tags);
    assert Selects(StripOutbound(y, tags), tags) == Selects(y, tags);
  }

  lemma StrippedText(j: Json, stripped: Json, key: string)
    requires (stripped == j || stripped == WithoutUsers(j)) && key != "users"
    ensures TextAt(FieldsOf(stripped), key) == TextAt(FieldsOf(j), key)
  {
  }

  lemma InboundsStripAlikeIff(xs: seq<Json>, ys: seq<Json>, tags: set<string>)
    requires "" !in tags
    ensures StripInbounds(xs, tags) == StripInbounds(ys, tags) <==> InboundsVary(xs, ys, tags)
  {
    hide StripInbound, Declared, SameButUsers;
    if |xs| == |ys| {
      forall i | 0 <= i < |xs|
        ensures StripInbounds(xs, tags)[i] == StripInbounds(ys, tags)[i] <==>
                xs[i] == ys[i] || (Declared(xs[i], tags) && SameButUsers(xs[i], ys[i]))
      {
        InboundStripsAlikeIff(xs[i], ys[i], tags);
      }
    } else {
      assert |StripInbounds(xs, tags)| == |xs| && |StripInbounds(ys, tags)| == |ys|;
    }
  }

  lemma OutboundsStripAlikeIff(xs: seq<Json>, ys: seq<Json>, tags: set<string>)
    ensures StripOutbounds(xs, tags) == StripOutbounds(ys, tags) <==> OutboundsVary(xs, ys, tags)
  {
    hide StripOutbound, Selects, SameButUsers;
    if |xs| == |ys| {
      forall i | 0 <= i < |xs|
        ensures StripOutbounds(xs, tags)[i] == StripOutbounds(ys, tags)[i] <==>
                xs[i] == ys[i] || (Selects(xs[i], tags) && SameButUsers(xs[i], ys[i]))
      {
        OutboundStripsAlikeIff(xs[i], ys[i], tags);
      }
    } else {
      assert |StripOutbounds(xs, tags)| == |xs| && |StripOutbounds(ys, tags)| == |ys|;
    }
  }

  lemma ListFieldsAgreeIff(a: Fields, b: Fields, key: string, xs: seq<Json>, ys: seq<Json>)
    requires (key !in a || !a[key].Array? ==> xs == []) && (key !in b || !b[key].Array? ==> ys == [])
    ensures ListField(a, key, xs) == ListField(b, key, ys) <==> SameShape(a, b, key) && xs == ys
  {
    var u, v := ListField(a, key, xs), ListField(b, key, ys);
    assert key in u <==> key in a;
    assert key in v <==> key in b;
    if key in a && key in b {
      assert u[key] == NewList(a[key], xs) && v[key] == NewList(b[key], ys);
    }
  }

  lemma BodiesAgreeIff(a: Fields, b: Fields, tags: set<string>)
    requires "" !in tags
    ensures Body(a, tags) == Body(b, tags) <==>
              && a - SPECIAL == b - SPECIAL
              && SameShape(a, b, "inbounds") && SameShape(a, b, "outbounds")
              && InboundsVary(ArrayAt(a, "inbounds"), ArrayAt(b, "inbounds"), tags)
              && OutboundsVary(ArrayAt(a, "outbounds"), ArrayAt(b, "outbounds"), tags)
  {
    hide StripInbounds, StripOutbounds, InboundsVary, OutboundsVary, SameShape;
    var xs, ys := StripInbounds(ArrayAt(a, "inbounds"), tags), StripInbounds(ArrayAt(b, "inbounds"), tags);
    var us, vs := StripOutbounds(ArrayAt(a, "outbounds"), tags), StripOutbounds(ArrayAt(b, "outbounds"), tags);
    InboundsStripAlikeIff(ArrayAt(a, "inbounds"), ArrayAt(b, "inbounds"), tags);
    OutboundsStripAlikeIff(ArrayAt(a, "outbounds"), ArrayAt(b, "outbounds"), tags);
    NothingToStrip(tags);
    ListFieldsAgreeIff(a, b, "inbounds", xs, ys);
    ListFieldsAgreeIff(a, b, "outbounds", us, vs);
    ThreeParts(a - SPECIAL, ListField(a, "inbounds", xs), ListField(a, "outbounds", us),
               b - SPECIAL, ListField(b, "inbounds", ys), ListField(b, "outbounds", vs));
  }

  lemma NothingToStrip(tags: set<string>)
    ensures StripInbounds([], tags) == [] && StripOutbounds([], tags) == []
  {
  }

  /** Maps put together from parts with keys of their own agree exactly if the parts do. */
  lemma TwoParts(p: Fields, q: Fields, p': Fields, q': Fields, key: string)
    requires key !in p && key !in p' && q.Keys + q'.Keys <= {key}
    ensures p + q == p' + q' <==> p == p' && q == q'
  {
    var whole, whole' := p + q, p' + q';
    assert p == whole - {key} && p' == whole' - {key};
    assert q == (map k | k in whole && k == key :: whole[k]);
    assert q' == (map k | k in whole' && k == key :: whole'[k]);
  }

  lemma ThreeParts(p: Fields, q: Fields, r: Fields, p': Fields, q': Fields, r': Fields)
    requires (p.Keys + p'.Keys) !! SPECIAL && q.Keys + q'.Keys <= {"inbounds"} && r.Keys + r'.Keys <= {"outbounds"}
    ensures p + q + r == p' + q' + r' <==> p == p' && q == q' && r == r'
  {
    TwoParts(p, q, p', q', "inbounds");
    TwoParts(p + q, r, p' + q', r', "outbounds");
  }

  /** A group is put apart from the rest. */
  lemma GroupsSplit(rest: Fields, rest': Fields, key: string, x: Fields, y: Fields)
    requires key !in rest && key !in rest'
    ensures WithGroup(rest, key, x) == WithGroup(rest', key, y) <==> rest == rest' && x == y
  {
    var u, v := WithGroup(rest, key, x), WithGroup(rest', key, y);
    assert rest == u - {key} && rest' == v - {key};
    assert x != map[] <==> key in u;
    assert y != map[] <==> key in v;
    assert x != map[] ==> u[key] == Object(x);
    assert y != map[] ==> v[key] == Object(y);
  }

  lemma BothGroupsDetermine(x: Fields, i: Fields, y: Fields, j: Fields)
    ensures Groups(x, i) == Groups(y, j) <==> x == y && i == j
  {
    GroupsSplit(WithGroup(map[], "users", x), WithGroup(map[], "users", y), "inbounds", i, j);
    GroupsSplit(map[], map[], "users", x, y);
  }

  lemma KeptAlikeIff(a: Fields, namesA: set<string>, b: Fields, namesB: set<string>, declaredA: bool, declaredB: bool)
    requires (declaredA || namesA == {}) && (declaredB || namesB == {})
    ensures Kept(a, namesA, declaredA) == Kept(b, namesB, declaredB) <==>
              && a - PUSHED - {"rate_limits"} == b - PUSHED - {"rate_limits"}
              && KeptUsers(a, namesA, declaredA) == KeptUsers(b, namesB, declaredB)
              && Installed(Entries(a, "inbounds")) == Installed(Entries(b, "inbounds"))
  {
    hide Kept, Installed, Foreign, Entries, KeptUsers, Groups, WithGroup;
    KeptByGroups(a, namesA, declaredA);
    KeptByGroups(b, namesB, declaredB);
    var users, users' := KeptUsers(a, namesA, declaredA), KeptUsers(b, namesB, declaredB);
    var inbounds, inbounds' := Installed(Entries(a, "inbounds")), Installed(Entries(b, "inbounds"));
    BothGroupsDetermine(users, inbounds, users', inbounds');
    GroupsSplit(a - PUSHED - {"rate_limits"}, b - PUSHED - {"rate_limits"}, "rate_limits",
      Groups(users, inbounds), Groups(users', inbounds'));
  }

  /** What may differ between two configurations of one digest, and nothing else may. */
  ghost predicate SameOperation(a: Fields, b: Fields) {
    var ma, mb := ObjectAt(a, "_oboard"), ObjectAt(b, "_oboard");
    && a - SPECIAL == b - SPECIAL
    && SameShape(a, b, "inbounds") && SameShape(a, b, "outbounds")
    && InboundsVary(ArrayAt(a, "inbounds"), ArrayAt(b, "inbounds"), Tags(ma))
    && OutboundsVary(ArrayAt(a, "outbounds"), ArrayAt(b, "outbounds"), Tags(ma))
    && ma - {"connection_audit", "authorization", "rate_limits"} ==
       mb - {"connection_audit", "authorization", "rate_limits"}
    && Installed(Entries(ma, "inbounds")) == Installed(Entries(mb, "inbounds"))
    && KeptUsers(ma, RuntimeNames(a), Tags(ma) != {}) == KeptUsers(mb, RuntimeNames(b), Tags(mb) != {})
  }

  /**
   Exactly when two configurations have the same digest: they agree in every
   field but the users of declared inbounds and their selectors, in all metadata
   but the members pushed to the running kernel and the rate limits, and in the
   identities their remaining rate limits bind. A root whose metadata are not an
   object is hashed as it is.
   */
  lemma SameDigestIff(a: Fields, b: Fields)
    ensures Normalize(a) == Normalize(b) <==> if Regular(a) && Regular(b) then SameOperation(a, b) else a == b
  {
    hide Normalize, Kept, Tags, RuntimeNames, Body, KeptUsers, Installed, Entries, InboundsVary, OutboundsVary,
      SameShape;
    if Regular(a) && Regular(b) {
      RegularDigestIff(a, b);
    } else {
      IrregularIsItself(a);
      IrregularIsItself(b);
    }
  }

  lemma IrregularIsItself(root: Fields)
    ensures !Regular(root) ==> Normalize(root) == root
    ensures Regular(root) ==> Regular(Normalize(root))
  {
    hide Strip, Retain;
  }

  lemma RegularDigestIff(a: Fields, b: Fields)
    requires Regular(a) && Regular(b)
    ensures Normalize(a) == Normalize(b) <==> SameOperation(a, b)
  {
    hide Normalize, Kept, Tags, RuntimeNames, Body, KeptUsers, Installed, Entries, InboundsVary, OutboundsVary,
      SameShape, ArrayAt;
    var ma, mb := ObjectAt(a, "_oboard"), ObjectAt(b, "_oboard");
    NormalParts(a);
    NormalParts(b);
    NamesNeedTags(a);
    NamesNeedTags(b);
    BodyHasNoMetadata(a, Tags(ma));
    BodyHasNoMetadata(b, Tags(mb));
    NoEmptyTag(ma);
    GroupsSplit(Body(a, Tags(ma)), Body(b, Tags(mb)), "_oboard",
      Kept(ma, RuntimeNames(a), Tags(ma) != {}), Kept(mb, RuntimeNames(b), Tags(mb) != {}));
    KeptAlikeIff(ma, RuntimeNames(a), mb, RuntimeNames(b), Tags(ma) != {}, Tags(mb) != {});
    LeftOut(ma);
    LeftOut(mb);
    if ma - PUSHED - {"rate_limits"} == mb - PUSHED - {"rate_limits"} {
      SameTags(ma, mb);
      BodiesAgreeIff(a, b, Tags(ma));
    }
  }

  lemma LeftOut(metadata: Fields)
    ensures metadata - PUSHED - {"rate_limits"} == metadata - {"connection_audit", "authorization", "rate_limits"}
  {
  }

  lemma NoEmptyTag(metadata: Fields)
    ensures "" !in Tags(metadata)
  {
    TextsAre(ArrayAt(ObjectAt(metadata, "runtime_users"), "inbounds"), "");
  }

  lemma NamesNeedTags(root: Fields)
    ensures Tags(ObjectAt(root, "_oboard")) == {} ==> RuntimeNames(root) == {}
  {
    if Tags(ObjectAt(root, "_oboard")) == {} {
      NothingDeclared(root);
    }
  }

  lemma BodyHasNoMetadata(root: Fields, tags: set<string>)
    ensures "_oboard" !in Body(root, tags)
  {
    hide StripInbounds, StripOutbounds;
  }

  function User(name: string): Json {
    Object(map["name" := Text(name)])
  }

  /** One declared inbound with the given users, and one limit for a user of no declared inbound. */
  function Sample(users: seq<Json>, limit: Json): Fields {
    map[
      "inbounds" := Array([Object(map["tag" := Text("in"), "users" := Array(users)])]),
      "_oboard" := Object(map[
        "runtime_users" := Object(map["inbounds" := Array([Text("in")])]),
        "rate_limits" := Object(map["users" := Object(map["other" := limit])])])]
  }

  lemma SampleParts(users: seq<Json>, limit: Json)
    requires users == [] || users == [User("alice")]
    ensures var m := ObjectAt(Sample(users, limit), "_oboard");
            && Regular(Sample(users, limit)) && Tags(m) == {"in"}
            && RuntimeNames(Sample(users, limit)) == (if users == [] then {} else {"alice"})
            && Foreign(m, RuntimeNames(Sample(users, limit))) == map["other" := limit]
            && Entries(m, "inbounds") == map[]
  {
    var m, raw := ObjectAt(Sample(users, limit), "_oboard"), [Text("in")];
    assert Tags(m) == Texts(raw) == {"in"} by { assert raw[..0] == []; }
    var inbounds := ArrayAt(Sample(users, limit), "inbounds");
    assert inbounds[..0] == [];
    assert Declared(inbounds[0], {"in"}) && ArrayAt(FieldsOf(inbounds[0]), "users") == users;
    assert users != [] ==> users[..0] == [] && UserNames(users) == {"alice"};
    assert Names(inbounds, {"in"}) == UserNames(users);
  }

  /** The first user on a declared inbound changes the digest if a foreign limit has a key, and does not otherwise. */
  lemma FirstUserShows(limit: Json)
    ensures var a, b := Sample([], limit), Sample([User("alice")], limit);
            OnlyUsersDiffer(a, b) && (Normalize(a) != Normalize(b) <==> AuthorizationKey(limit) != "")
  {
    hide Tags, RuntimeNames, Normalize, Foreign;
    var a, b := Sample([], limit), Sample([User("alice")], limit);
    SampleParts([], limit);
    SampleParts([User("alice")], limit);
    SampleVaries(limit);
    RuntimeUsersDoNotShowIff(a, b);
    assert "other" in Installed(map["other" := limit]) <==> AuthorizationKey(limit) != "";
  }

  lemma SampleVaries(limit: Json)
    ensures var a, b := Sample([], limit), Sample([User("alice")], limit);
            OnlyUsersDiffer(a, b)
  {
    hide Tags, RuntimeNames, Normalize, Foreign;
    var a, b := Sample([], limit), Sample([User("alice")], limit);
    SampleParts([], limit);
    SampleParts([User("alice")], limit);
    var x, y := ArrayAt(a, "inbounds")[0], ArrayAt(b, "inbounds")[0];
    assert x.fields - {"users"} == y.fields - {"users"};
    assert a - SPECIAL == b - SPECIAL;
    assert ObjectAt(a, "_oboard") == ObjectAt(b, "_oboard");
  }

  // ---------------------------------------------------------------------------
  // The code as written
  // ---------------------------------------------------------------------------

  method CollectTags(raw: seq<Json>) returns (tags: set<string>)
    ensures tags == Texts(raw)
  {
    tags := {};
    for i := 0 to |raw|
      invariant tags == Texts(raw[..i])
    {
      assert raw[..i + 1][..i] == raw[..i];
      if raw[i].Text? && raw[i].text != "" {
        tags := tags + {raw[i].text};
      }
    }
    assert raw[..|raw|] == raw;
  }

  method CollectNames(users: seq<Json>, before: set<string>) returns (names: set<string>)
    ensures names == before + UserNames(users)
  {
    names := before;
    for i := 0 to |users|
      invariant names == before + UserNames(users[..i])
    {
      assert users[..i + 1][..i] == users[..i];
      var name := TextAt(FieldsOf(users[i]), "name");
      if name != "" {
        names := names + {name};
      }
    }
    assert users[..|users|] == users;
  }

  /** One pass over the inbounds gathers the names and removes the users. */
  method PassInbounds(inbounds: seq<Json>, tags: set<string>) returns (names: set<string>, stripped: seq<Json>)
    ensures names == Names(inbounds, tags) && stripped == StripInbounds(inbounds, tags)
  {
    names, stripped := {}, [];
    for i := 0 to |inbounds|
      invariant names == Names(inbounds[..i], tags)
      invariant |stripped| == i && forall j :: 0 <= j < i ==> stripped[j] == StripInbound(inbounds[j], tags)
    {
      assert inbounds[..i + 1][..i] == inbounds[..i];
      var inbound := inbounds[i];
      if Declared(inbound, tags) {
        names := CollectNames(ArrayAt(FieldsOf(inbound), "users"), names);
        stripped := stripped + [WithoutUsers(inbound)];
      } else {
        stripped := stripped + [inbound];
      }
    }
    assert inbounds[..|inbounds|] == inbounds;
  }

  method PassOutbounds(outbounds: seq<Json>, tags: set<string>) returns (stripped: seq<Json>)
    ensures stripped == StripOutbounds(outbounds, tags)
  {
    stripped := [];
    for i := 0 to |outbounds|
      invariant |stripped| == i && forall j :: 0 <= j < i ==> stripped[j] == StripOutbound(outbounds[j], tags)
    {
      var outbound := outbounds[i];
      if Selects(outbound, tags) {
        outbound := WithoutUsers(outbound);
      }
      stripped := stripped + [outbound];
    }
  }

  method StripRuntimeUserFields(root: Fields) returns (out: Fields)
    ensures out == Strip(root)
  {
    hide Texts, Names, StripInbounds, StripOutbounds;
    out := root;
    var metadata := ObjectAt(root, "_oboard");
    var tags := CollectTags(ArrayAt(ObjectAt(metadata, "runtime_users"), "inbounds"));
    if tags == {} {
      return;
    }
    var names, inbounds := PassInbounds(ArrayAt(root, "inbounds"), tags);
    var outbounds := PassOutbounds(ArrayAt(root, "outbounds"), tags);
    out := out["_oboard" := Object(StripLimits(metadata, names))];
    if "inbounds" in out && out["inbounds"].Array? {
      out := out["inbounds" := Array(inbounds)];
    }
    if "outbounds" in out && out["outbounds"].Array? {
      out := out["outbounds" := Array(outbounds)];
    }
  }

  method InstalledIdentity(entry: Fields, wanted: seq<string>, key: string) returns (out: Fields)
    ensures out == Picked(entry, wanted, key)
  {
    out := map["authorization_key" := Text(key)];
    for i := 0 to |wanted|
      invariant out == Picked(entry, wanted[..i], key)
    {
      assert wanted[..i + 1][..i] == wanted[..i];
      if wanted[i] in entry {
        out := out[wanted[i] := entry[wanted[i]]];
      }
    }
    assert wanted[..|wanted|] == wanted;
  }

  lemma InstalledGrows(entries: Fields, name: string, entry: Json)
    requires name !in entries
    ensures Installed(entries[name := entry]) ==
            if AuthorizationKey(entry) == "" then Installed(entries) else Installed(entries)[name := Identity(entry)]
  {
    hide Identity;
  }

  /** Walks a group in whatever order the map gives. */
  method InstalledKeys(entries: Fields) returns (keys: Fields)
    ensures keys == Installed(entries)
  {
    hide Installed, Picked;
    keys := map[];
    NothingInstalled();
    var left := entries;
    ghost var done: Fields := map[];
    while left != map[]
      invariant left.Keys !! done.Keys && left + done == entries && keys == Installed(done)
      decreases left.Keys
    {
      var name :| name in left;
      var entry := FieldsOf(left[name]);
      var key := TextAt(entry, "authorization_key");
      InstalledGrows(done, name, left[name]);
      if key != "" {
        var identity := InstalledIdentity(entry, IDENTITY_FIELDS, key);
        keys := keys[name := Object(identity)];
      }
      done := done[name := left[name]];
      left := left - {name};
    }
    assert done == entries;
  }

  method RetainInstalledKeys(metadata: Fields) returns (out: Fields)
    ensures out == Retain(metadata)
  {
    hide Installed;
    var limits, installed := ObjectAt(metadata, "rate_limits"), map[];
    var users := InstalledKeys(ObjectAt(limits, "users"));
    if |users| > 0 {
      installed := installed["users" := Object(users)];
    }
    var inbounds := InstalledKeys(ObjectAt(limits, "inbounds"));
    if |inbounds| > 0 {
      installed := installed["inbounds" := Object(inbounds)];
    }
    out := metadata - {"rate_limits"};
    if |installed| > 0 {
      out := out["rate_limits" := Object(installed)];
    }
  }

  /** The form that is hashed, step by step. */
  method NormalizeOperationalCoreConfig(root: Fields) returns (out: Fields)
    ensures out == Normalize(root)
  {
    hide Strip, Retain;
    out := root;
    if "_oboard" in root && root["_oboard"].Object? {
      out := StripRuntimeUserFields(root);
      var metadata := RetainInstalledKeys(ObjectAt(out, "_oboard"));
      metadata := metadata - PUSHED;
      out := if |metadata| == 0 then out - {"_oboard"} else out["_oboard" := Object(metadata)];
    }
  }
}
