/** `build_data_array`: the object the edit screen and the Customizer read,
    reduced to the parts computed from the post — the normalised post, the
    flattened metadata, the eight maps and the three flags. */
module DataArray {
  import opened PhpValues
  import opened Registry
  import opened Posts
  import opened Snapshot
  import opened Readiness

  /** The request context: `time()`, the (filtered) development domain and
      the request's `Host`, absent when the server sets none. */
  datatype Env = Env(now: int, devDomain: string, host: Option<string>)

  datatype Data = Data(
    post: Post,
    meta: map<string, Value>,
    snapshot: Snapshot,
    requirementsMet: int,
    scheduled: int,
    postDatePast: string)

  /** The data array for a stored post, its raw metadata (key to list of
      values), the taxonomies of its type with the terms attached to the
      post, and the requirement tables for its type. */
  function BuildData(
    stored: Post,
    rawMeta: map<string, seq<string>>,
    taxonomies: seq<string>,
    attached: map<string, seq<Term>>,
    tables: Tables,
    env: Env): (d: Data)
    ensures d.requirementsMet == (if Ready(d.snapshot) || env.host == Some(env.devDomain) then 1 else 0)
    ensures d.scheduled == (if IfScheduledPost(stored, env.now) then 1 else 0)
    ensures d.postDatePast == "1" <==> !IfScheduledPost(stored, env.now) && stored.dateGmt != ZeroDate
    ensures d.meta.Keys == rawMeta.Keys
  {
    var post := NormalizeTitle(stored);
    var meta := FlattenMeta(rawMeta);
    var terms := TermMap(taxonomies, attached);
    var snapshot := Build(post, meta, terms, tables);
    var met := ApplyDevOverride(Ready(snapshot), env.devDomain, env.host);
    Data(post, meta, snapshot,
         if met then 1 else 0,
         if IfScheduledPost(post, env.now) then 1 else 0,
         PostDatePast(post, env.now))
  }

  /** A primary requirement reads the stored column, except that a title of
      exactly "Auto Draft" reads as "" (and any other title is kept as is). */
  lemma PrimaryRequirementValue(
    stored: Post, rawMeta: map<string, seq<string>>, taxonomies: seq<string>,
    attached: map<string, seq<Term>>, tables: Tables, env: Env, key: string)
    requires key in tables.requiredPrimary
    ensures var d := BuildData(stored, rawMeta, taxonomies, attached, tables, env);
            d.snapshot.requiredPrimary[key].value ==
              if key == TitleKey && Field(stored, TitleKey) == Str(AutoDraftTitle) then Str("")
              else Field(stored, key)
  {
  }

  /** A meta requirement reads the first value stored under its key, and
      `null` when the key is absent or holds no value. */
  lemma MetaRequirementValue(
    stored: Post, rawMeta: map<string, seq<string>>, taxonomies: seq<string>,
    attached: map<string, seq<Term>>, tables: Tables, env: Env, key: string)
    requires key in tables.requiredMeta
    ensures var d := BuildData(stored, rawMeta, taxonomies, attached, tables, env);
            d.snapshot.requiredMeta[key].value ==
              if key in rawMeta && |rawMeta[key]| > 0 then Str(rawMeta[key][0]) else Null
  {
  }

  /** The labels of the members stored with at least one value, read
      directly off the raw metadata. */
  function StoredLabels(members: seq<Member>, rawMeta: map<string, seq<string>>): (labels: seq<string>)
    ensures |labels| <= |members|
  {
    if |members| == 0 then []
    else
      var k := members[0].key;
      (if k in rawMeta && |rawMeta[k]| > 0 then [members[0].caption] else []) + StoredLabels(members[1..], rawMeta)
  }

  lemma {:induction false} PresentIsStored(members: seq<Member>, rawMeta: map<string, seq<string>>)
    ensures PresentLabels(members, FlattenMeta(rawMeta)) == StoredLabels(members, rawMeta)
  {
    if |members| > 0 {
      PresentIsStored(members[1..], rawMeta);
    }
  }

  /** A group's value is the ", "-join, in declared order, of the labels of
      the members whose key is stored with a value — even an empty value. */
  lemma GroupRequirementValue(
    stored: Post, rawMeta: map<string, seq<string>>, taxonomies: seq<string>,
    attached: map<string, seq<Term>>, tables: Tables, env: Env, key: string)
    requires key in tables.requiredGroups
    ensures var d := BuildData(stored, rawMeta, taxonomies, attached, tables, env);
            d.snapshot.requiredGroups[key].value == Join(StoredLabels(tables.requiredGroups[key].members, rawMeta))
  {
    PresentIsStored(tables.requiredGroups[key].members, rawMeta);
  }

  /** The group test is `isset`, not a value test: a group whose only stored
      member holds the empty string still joins that member's label, so it
      passes although none of its members has a value. */
  lemma EmptyStoredValueSatisfiesGroup()
    ensures var members := [Member("a", "Alpha"), Member("b", "Beta")];
            var meta := FlattenMeta(map["a" := [""]]);
            && !IsSet(meta, "b") && MetaValue(meta, "a") == Str("")
            && GroupValue(members, meta) == "Alpha"
            && !EmptyString(GroupValue(members, meta))
  {
    var members := [Member("a", "Alpha"), Member("b", "Beta")];
    var raw := map["a" := [""]];
    PresentIsStored(members, raw);
    assert StoredLabels(members[1..], raw) == [];
  }

  /** A taxonomy requirement reads the ", "-join of the attached term names,
      and the empty list when the post type lacks the taxonomy or the post
      has no term in it. */
  lemma TaxonomyRequirementValue(
    stored: Post, rawMeta: map<string, seq<string>>, taxonomies: seq<string>,
    attached: map<string, seq<Term>>, tables: Tables, env: Env, tax: string)
    requires tax in tables.requiredTaxonomies
    ensures var d := BuildData(stored, rawMeta, taxonomies, attached, tables, env);
            d.snapshot.requiredTaxonomies[tax].value ==
              if tax in taxonomies && tax in attached && |attached[tax]| > 0
              then Str(Join(TermNames(attached[tax])))
              else List([])
  {
  }

  /** With the default tables, a post is ready exactly when it has a title
      other than the placeholder and content, both non-empty under `empty()`. */
  lemma DefaultReadyIff(
    stored: Post, rawMeta: map<string, seq<string>>, taxonomies: seq<string>,
    attached: map<string, seq<Term>>, env: Env)
    ensures var d := BuildData(stored, rawMeta, taxonomies, attached, DefaultTables(stored.postType), env);
            Ready(d.snapshot) <==>
              && TitleKey in stored.fields && stored.fields[TitleKey] != AutoDraftTitle
              && !EmptyString(stored.fields[TitleKey])
              && ContentKey in stored.fields && !EmptyString(stored.fields[ContentKey])
  {
  }

  /** With the default (empty) development domain, any request carrying a
      real host reports the verdict unchanged. */
  lemma DefaultDevDomainNeverOverrides(
    stored: Post, rawMeta: map<string, seq<string>>, taxonomies: seq<string>,
    attached: map<string, seq<Term>>, tables: Tables, env: Env)
    requires env.devDomain == DefaultDevDomain && env.host.Some? && env.host.value != ""
    ensures var d := BuildData(stored, rawMeta, taxonomies, attached, tables, env);
            d.requirementsMet == (if Ready(d.snapshot) then 1 else 0)
  {
  }
}
