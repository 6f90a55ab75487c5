/** The snapshot half of `build_data_array`: the post's own fields, its
    flattened metadata and its taxonomy terms, resolved against the eight
    requirement tables into eight decorated maps. */
module Snapshot {
  import opened PhpValues
  import opened Registry
  import opened Posts

  /** The title WordPress gives a post nobody has touched yet. */
  const AutoDraftTitle: string := "Auto Draft"

  /** A term as `get_the_terms` returns it: its id and display name. */
  datatype Term = Term(id: int, name: string)

  /** A decorated primary, meta or taxonomy requirement: `label`, `value`,
      `hasValue`, `noValue`, `showValue`. */
  datatype Entry = Entry(caption: string, value: Value, hasValue: string, noValue: string, showValue: bool)

  /** A decorated group: its label taken verbatim (possibly unset), its
      member keys in declared order, and the joined labels of present members. */
  datatype GroupEntry = GroupEntry(
    caption: Option<string>,
    keys: seq<string>,
    value: string,
    hasValue: string,
    noValue: string,
    showValue: bool)

  /** The eight maps, required/optional × primary/meta/group/taxonomy. */
  datatype Snapshot = Snapshot(
    requiredPrimary: map<string, Entry>,
    optionalPrimary: map<string, Entry>,
    requiredMeta: map<string, Entry>,
    optionalMeta: map<string, Entry>,
    requiredGroups: map<string, GroupEntry>,
    optionalGroups: map<string, GroupEntry>,
    requiredTaxonomies: map<string, Entry>,
    optionalTaxonomies: map<string, Entry>)

  /* ---- the post record ---- */

  /** `$post->$key`: the column's text, or `null` for a property the post lacks. */
  function Field(post: Post, key: string): Value {
    if key in post.fields then Str(post.fields[key]) else Null
  }

  /** Clears the placeholder title so an untouched post never satisfies a
      title requirement; any other title, and every other column, is kept. */
  function NormalizeTitle(post: Post): (r: Post)
    ensures r.id == post.id && r.postType == post.postType && r.status == post.status
    ensures r.date == post.date && r.dateGmt == post.dateGmt
    ensures r.fields.Keys == post.fields.Keys
    ensures forall k :: k in post.fields && k != TitleKey ==> r.fields[k] == post.fields[k]
    ensures Field(r, TitleKey) == (if Field(post, TitleKey) == Str(AutoDraftTitle) then Str("") else Field(post, TitleKey))
  {
    if TitleKey in post.fields && !EmptyString(post.fields[TitleKey]) && post.fields[TitleKey] == AutoDraftTitle
    then post.(fields := post.fields[TitleKey := ""])
    else post
  }

  lemma NormalizeTitleIdempotent(post: Post)
    ensures NormalizeTitle(NormalizeTitle(post)) == NormalizeTitle(post)
  {
  }

  /* ---- metadata ---- */

  /** Collapses each meta key's list of stored values to its first value;
      a key stored with no value at all reads as `null`. */
  function FlattenMeta(raw: map<string, seq<string>>): (meta: map<string, Value>)
    ensures meta.Keys == raw.Keys
    ensures forall k :: k in meta ==> meta[k].Null? || meta[k].Str?
    ensures forall k :: IsSet(meta, k) <==> k in raw && |raw[k]| > 0
    ensures forall k :: IsSet(meta, k) ==> meta[k] == Str(raw[k][0])
  {
    map k | k in raw :: if |raw[k]| > 0 then Str(raw[k][0]) else Null
  }

  /** `isset($meta[$key])`: the key is present with a non-null value, whatever
      that value is — an empty string counts as set. */
  predicate IsSet(meta: map<string, Value>, key: string) {
    key in meta && meta[key] != Null
  }

  /** The value a meta requirement reads: the flattened value, or `null`. */
  function MetaValue(meta: map<string, Value>, key: string): Value {
    if IsSet(meta, key) then meta[key] else Null
  }

  /* ---- taxonomy terms ---- */

  /** `$names[$term_id] = $name` on a PHP array keyed by term id: an id seen
      before keeps its position and takes the new name, a new id is appended. */
  function PutTerm(entries: seq<Term>, t: Term): (r: seq<Term>)
    ensures |r| >= 1 && |r| >= |entries|
  {
    if |entries| == 0 then [t]
    else if entries[0].id == t.id then [t] + entries[1..]
    else [entries[0]] + PutTerm(entries[1..], t)
  }

  /** Assigns every term of `ts`, in order, into the array `acc`. */
  function CollectTerms(acc: seq<Term>, ts: seq<Term>): (r: seq<Term>)
    ensures |r| >= |acc|
    ensures |ts| > 0 ==> |r| > 0
    decreases |ts|
  {
    if |ts| == 0 then acc else CollectTerms(PutTerm(acc, ts[0]), ts[1..])
  }

  function Names(ts: seq<Term>): (names: seq<string>)
    ensures |names| == |ts|
    ensures forall i :: 0 <= i < |ts| ==> names[i] == ts[i].name
  {
    seq(|ts|, i requires 0 <= i < |ts| => ts[i].name)
  }

  /** The names of a taxonomy's attached terms, one per term id. */
  function TermNames(ts: seq<Term>): seq<string> {
    Names(CollectTerms([], ts))
  }

  predicate DistinctIds(ts: seq<Term>) {
    forall i, j :: 0 <= i < j < |ts| ==> ts[i].id != ts[j].id
  }

  lemma {:induction false} PutTermFresh(entries: seq<Term>, t: Term)
    requires forall i :: 0 <= i < |entries| ==> entries[i].id != t.id
    ensures PutTerm(entries, t) == entries + [t]
  {
    if |entries| > 0 {
      PutTermFresh(entries[1..], t);
      assert [entries[0]] + (entries[1..] + [t]) == entries + [t];
    }
  }

  lemma {:induction false} CollectDistinct(acc: seq<Term>, ts: seq<Term>)
    requires DistinctIds(acc + ts)
    ensures CollectTerms(acc, ts) == acc + ts
    decreases |ts|
  {
    if |ts| == 0 {
      assert acc + ts == acc;
    } else {
      var all := acc + ts;
      forall i | 0 <= i < |acc|
        ensures acc[i].id != ts[0].id
      {
        assert all[i] == acc[i] && all[|acc|] == ts[0];
      }
      PutTermFresh(acc, ts[0]);
      assert (acc + [ts[0]]) + ts[1..] == all;
      CollectDistinct(acc + [ts[0]], ts[1..]);
    }
  }

  /** When `get_the_terms` returns each term once (distinct ids), the
      taxonomy's names are exactly the terms' names in the order returned. */
  lemma TermNamesOfDistinct(ts: seq<Term>)
    requires DistinctIds(ts)
    ensures TermNames(ts) == Names(ts)
  {
    assert [] + ts == ts;
    CollectDistinct([], ts);
  }

  /** The `$terms` array: for each taxonomy of the post type that has terms
      attached, their names. Taxonomies without terms are left out entirely. */
  function TermMap(taxonomies: seq<string>, attached: map<string, seq<Term>>): (terms: map<string, seq<string>>)
    ensures forall tax :: tax in terms <==> tax in taxonomies && tax in attached && |attached[tax]| > 0
    ensures forall tax :: tax in terms ==> terms[tax] == TermNames(attached[tax]) && |terms[tax]| > 0
  {
    map tax | tax in taxonomies && tax in attached && |attached[tax]| > 0 :: TermNames(attached[tax])
  }

  /** A taxonomy requirement's value: the joined term names, or the empty
      list when the taxonomy has none. */
  function TaxonomyValue(terms: map<string, seq<string>>, tax: string): Value {
    var names := if tax in terms then terms[tax] else [];
    if |names| > 0 then Str(Join(names)) else List(names)
  }

  /* ---- decoration ---- */

  /** A primary, meta or taxonomy entry: the label falls back to the key, the
      two texts to "", each through PHP's `?:`. */
  function Decorate(key: string, spec: FieldSpec, value: Value): (e: Entry)
    ensures e.value == value && e.showValue == spec.showValue
    ensures Truthy(spec.caption) ==> e.caption == spec.caption.value
    ensures !Truthy(spec.caption) ==> e.caption == key
    ensures Truthy(spec.hasValue) ==> e.hasValue == spec.hasValue.value
    ensures !Truthy(spec.hasValue) ==> e.hasValue == ""
    ensures Truthy(spec.noValue) ==> e.noValue == spec.noValue.value
    ensures !Truthy(spec.noValue) ==> e.noValue == ""
    ensures !EmptyString(key) ==> !EmptyString(e.caption)
    ensures e.hasValue != "0" && e.noValue != "0"
  {
    Entry(OrElse(spec.caption, key), value, OrElse(spec.hasValue, ""), OrElse(spec.noValue, ""), spec.showValue)
  }

  /** The labels of the members whose key is set in the metadata, in declared order. */
  function PresentLabels(members: seq<Member>, meta: map<string, Value>): seq<string> {
    if |members| == 0 then []
    else (if IsSet(meta, members[0].key) then [members[0].caption] else []) + PresentLabels(members[1..], meta)
  }

  /** A group's value: the joined labels of its present members. */
  function GroupValue(members: seq<Member>, meta: map<string, Value>): string {
    Join(PresentLabels(members, meta))
  }

  function MemberKeys(members: seq<Member>): (keys: seq<string>)
    ensures |keys| == |members|
    ensures forall i :: 0 <= i < |members| ==> keys[i] == members[i].key
  {
    seq(|members|, i requires 0 <= i < |members| => members[i].key)
  }

  /** A group entry: the label is taken as declared, with no fallback; the
      two texts fall back to "" through `?:`; the value joins the labels of
      the present members. */
  function DecorateGroup(spec: GroupSpec, meta: map<string, Value>): (g: GroupEntry)
    ensures g.caption == spec.caption && g.keys == MemberKeys(spec.members)
    ensures g.showValue == spec.showValue
    ensures Truthy(spec.hasValue) ==> g.hasValue == spec.hasValue.value
    ensures !Truthy(spec.hasValue) ==> g.hasValue == ""
    ensures Truthy(spec.noValue) ==> g.noValue == spec.noValue.value
    ensures !Truthy(spec.noValue) ==> g.noValue == ""
    ensures g.value == Join(PresentLabels(spec.members, meta))
  {
    GroupEntry(spec.caption, MemberKeys(spec.members), GroupValue(spec.members, meta),
               OrElse(spec.hasValue, ""), OrElse(spec.noValue, ""), spec.showValue)
  }

  /** A group's value is non-empty under `empty()` exactly when two or more
      members are present, or one is present and its label is neither "" nor "0". */
  lemma GroupFilledIff(members: seq<Member>, meta: map<string, Value>)
    ensures var present := PresentLabels(members, meta);
            !EmptyString(GroupValue(members, meta)) <==>
              |present| >= 2 || (|present| == 1 && !EmptyString(present[0]))
  {
    JoinEmptyIff(PresentLabels(members, meta));
  }

  lemma {:induction false} PresentLabelsFacts(members: seq<Member>, meta: map<string, Value>)
    ensures forall l :: l in PresentLabels(members, meta) ==> exists i :: 0 <= i < |members| && members[i].caption == l
    ensures |PresentLabels(members, meta)| > 0 <==> exists i :: 0 <= i < |members| && IsSet(meta, members[i].key)
  {
    if |members| > 0 {
      PresentLabelsFacts(members[1..], meta);
      var rest := PresentLabels(members[1..], meta);
      forall l | l in PresentLabels(members, meta)
        ensures exists i :: 0 <= i < |members| && members[i].caption == l
      {
        if l in rest {
          var j :| 0 <= j < |members[1..]| && members[1..][j].caption == l;
          assert members[j + 1].caption == l;
        } else {
          assert members[0].caption == l;
        }
      }
      if exists i :: 0 <= i < |members| && IsSet(meta, members[i].key) {
        var i :| 0 <= i < |members| && IsSet(meta, members[i].key);
        if i > 0 {
          assert IsSet(meta, members[1..][i - 1].key);
        }
      }
      if IsSet(meta, members[0].key) {
        assert |PresentLabels(members, meta)| > 0;
      } else if |rest| > 0 {
        var j :| 0 <= j < |members[1..]| && IsSet(meta, members[1..][j].key);
        assert IsSet(meta, members[j + 1].key);
      }
    }
  }

  /** When every member label is a real label (neither "" nor "0"), a group is
      satisfied exactly when at least one of its member keys is set: the
      logical OR across members. Being set is `isset`, not non-emptiness. */
  lemma GroupIsOrOfMembers(members: seq<Member>, meta: map<string, Value>)
    requires forall i :: 0 <= i < |members| ==> !EmptyString(members[i].caption)
    ensures !EmptyString(GroupValue(members, meta)) <==>
              exists i :: 0 <= i < |members| && IsSet(meta, members[i].key)
  {
    var present := PresentLabels(members, meta);
    GroupFilledIff(members, meta);
    PresentLabelsFacts(members, meta);
    if |present| == 1 {
      assert present[0] in present;
    }
  }

  /* ---- the eight maps ---- */

  function PrimaryEntries(table: map<string, FieldSpec>, post: Post): (m: map<string, Entry>)
    ensures m.Keys == table.Keys
    ensures forall k :: k in table ==> m[k] == Decorate(k, table[k], Field(post, k))
  {
    map key | key in table :: Decorate(key, table[key], Field(post, key))
  }

  function MetaEntries(table: map<string, FieldSpec>, meta: map<string, Value>): (m: map<string, Entry>)
    ensures m.Keys == table.Keys
    ensures forall k :: k in table ==> m[k] == Decorate(k, table[k], MetaValue(meta, k))
  {
    map key | key in table :: Decorate(key, table[key], MetaValue(meta, key))
  }

  function GroupEntries(table: map<string, GroupSpec>, meta: map<string, Value>): (m: map<string, GroupEntry>)
    ensures m.Keys == table.Keys
    ensures forall k :: k in table ==> m[k] == DecorateGroup(table[k], meta)
  {
    map key | key in table :: DecorateGroup(table[key], meta)
  }

  function TaxonomyEntries(table: map<string, FieldSpec>, terms: map<string, seq<string>>): (m: map<string, Entry>)
    ensures m.Keys == table.Keys
    ensures forall k :: k in table ==> m[k] == Decorate(k, table[k], TaxonomyValue(terms, k))
  {
    map tax | tax in table :: Decorate(tax, table[tax], TaxonomyValue(terms, tax))
  }

  /** Every requirement of every table yields exactly one entry, and nothing
      else does. `post` is the title-normalised post, `meta` the flattened
      metadata, `terms` the term map. */
  function Build(post: Post, meta: map<string, Value>, terms: map<string, seq<string>>, tables: Tables): (s: Snapshot)
    ensures s.requiredPrimary.Keys == tables.requiredPrimary.Keys
    ensures s.optionalPrimary.Keys == tables.optionalPrimary.Keys
    ensures s.requiredMeta.Keys == tables.requiredMeta.Keys
    ensures s.optionalMeta.Keys == tables.optionalMeta.Keys
    ensures s.requiredGroups.Keys == tables.requiredGroups.Keys
    ensures s.optionalGroups.Keys == tables.optionalGroups.Keys
    ensures s.requiredTaxonomies.Keys == tables.requiredTaxonomies.Keys
    ensures s.optionalTaxonomies.Keys == tables.optionalTaxonomies.Keys
    ensures forall k :: k in tables.requiredPrimary ==>
              s.requiredPrimary[k] == Decorate(k, tables.requiredPrimary[k], Field(post, k))
    ensures forall k :: k in tables.optionalPrimary ==>
              s.optionalPrimary[k] == Decorate(k, tables.optionalPrimary[k], Field(post, k))
    ensures forall k :: k in tables.requiredMeta ==>
              s.requiredMeta[k] == Decorate(k, tables.requiredMeta[k], MetaValue(meta, k))
    ensures forall k :: k in tables.optionalMeta ==>
              s.optionalMeta[k] == Decorate(k, tables.optionalMeta[k], MetaValue(meta, k))
    ensures forall k :: k in tables.requiredGroups ==>
              s.requiredGroups[k] == DecorateGroup(tables.requiredGroups[k], meta)
    ensures forall k :: k in tables.optionalGroups ==>
              s.optionalGroups[k] == DecorateGroup(tables.optionalGroups[k], meta)
    ensures forall k :: k in tables.requiredTaxonomies ==>
              s.requiredTaxonomies[k] == Decorate(k, tables.requiredTaxonomies[k], TaxonomyValue(terms, k))
    ensures forall k :: k in tables.optionalTaxonomies ==>
              s.optionalTaxonomies[k] == Decorate(k, tables.optionalTaxonomies[k], TaxonomyValue(terms, k))
  {
    Snapshot(
      PrimaryEntries(tables.requiredPrimary, post),
      PrimaryEntries(tables.optionalPrimary, post),
      MetaEntries(tables.requiredMeta, meta),
      MetaEntries(tables.optionalMeta, meta),
      GroupEntries(tables.requiredGroups, meta),
      GroupEntries(tables.optionalGroups, meta),
      TaxonomyEntries(tables.requiredTaxonomies, terms),
      TaxonomyEntries(tables.optionalTaxonomies, terms))
  }
}
