/** The requirement registry: the eight tables a post type's requirements are
    read from (`get_required_primary_fields` … `get_optional_taxonomies`),
    the supported post types and the development domain. The filters that
    extend these tables are external: a filtered table is simply a different
    `Tables` value handed to the snapshot builder. */
module Registry {
  import opened PhpValues

  /** A primary field, meta field or taxonomy requirement, the array
      `label` (here `caption`) / `show_value` / `has_value` / `no_value`; an unset entry is `None`. */
  datatype FieldSpec = FieldSpec(
    caption: Option<string>,
    showValue: bool,
    hasValue: Option<string>,
    noValue: Option<string>)

  /** One entry `meta key => display label` of a group's `meta_keys` array. */
  datatype Member = Member(key: string, caption: string)

  /** A meta field group: satisfied by its members collectively. `members`
      keeps the declared order of `meta_keys`. */
  datatype GroupSpec = GroupSpec(
    caption: Option<string>,
    members: seq<Member>,
    showValue: bool,
    hasValue: Option<string>,
    noValue: Option<string>)

  /** The eight requirement tables for one post type, keyed by field, meta
      key, group key or taxonomy name. */
  datatype Tables = Tables(
    requiredPrimary: map<string, FieldSpec>,
    optionalPrimary: map<string, FieldSpec>,
    requiredMeta: map<string, FieldSpec>,
    optionalMeta: map<string, FieldSpec>,
    requiredGroups: map<string, GroupSpec>,
    optionalGroups: map<string, GroupSpec>,
    requiredTaxonomies: map<string, FieldSpec>,
    optionalTaxonomies: map<string, FieldSpec>)

  const TitleKey: string := "post_title"
  const ContentKey: string := "post_content"

  /** The unfiltered tables: only the title and the content are required,
      every other table is empty. The defaults do not depend on the post type;
      only the filters see it. */
  function DefaultTables(postType: string): (t: Tables)
    ensures t.requiredPrimary.Keys == {TitleKey, ContentKey}
    ensures forall k :: k in t.requiredPrimary ==>
              t.requiredPrimary[k].caption.Some? && !EmptyString(t.requiredPrimary[k].caption.value)
    ensures t.optionalPrimary == map[] && t.requiredMeta == map[] && t.optionalMeta == map[]
    ensures t.requiredGroups == map[] && t.optionalGroups == map[]
    ensures t.requiredTaxonomies == map[] && t.optionalTaxonomies == map[]
  {
    var title := FieldSpec(Some("Post Title"), true, Some("The post has a title"), Some("The post is missing a title"));
    var content := FieldSpec(Some("Post Content"), false, Some("The post has content"), Some("The post is missing content"));
    Tables(map[TitleKey := title, ContentKey := content], map[], map[], map[], map[], map[], map[], map[])
  }

  /** The post types Publishing Flow is enabled for when no filter changes them. */
  const DefaultPostTypes: seq<string> := ["post", "page"]

  /** `is_supported_post_type` against the (possibly filtered) list of types:
      a type is supported exactly when some entry of the list equals it. */
  function IsSupportedPostType(postType: string, postTypes: seq<string>): (r: bool)
    ensures r <==> exists i :: 0 <= i < |postTypes| && postTypes[i] == postType
  {
    postType in postTypes
  }

  lemma DefaultSupportedPostTypes(postType: string)
    ensures IsSupportedPostType(postType, DefaultPostTypes) <==> postType == "post" || postType == "page"
  {
  }

  /** The development domain when no filter sets one. */
  const DefaultDevDomain: string := ""
}
