# Publishing Flow: readiness and publish-transition engine in Dafny

Publishing Flow is a WordPress plugin. It gates publishing behind a set of required fields and then publishes or schedules the post from the Customizer. This project models the engine inside `Publishing_Flow_Admin` as pure Dafny functions over immutable values. The engine has five parts:

- **Snapshot** (`Snapshot`, `DataArray`). This is `build_data_array`. It takes the post record, its metadata (key to list of values) and the terms attached to it. It resolves them against the eight requirement tables (required/optional × primary/meta/group/taxonomy) into eight decorated maps. It also computes the `requirementsMet`, `scheduled` and `postDatePast` flags.
- **Verdict** (`Readiness`). This is `check_requirements_met`, plus the development-domain override its caller applies afterwards.
- **Scheduling** (`Posts`). This is `if_scheduled_post` and the three-way split the publish handler acts on: immediate, backdated or scheduled.
- **Publish handler** (`PublishFlow`). This is `ajax_publish_post`, written as a step function from a request and the stored post to a response and the stored post afterwards.
- **Customizer hand-off** (`CustomizerUrl`). This is `build_customizer_url` together with the `add_query_arg` and `urlencode` behaviour it depends on, and `customizer_redirect`.

`PhpValues` holds the PHP semantics these parts share: `empty()`, the short ternary `?:`, `implode(', ', …)` and int-to-string conversion. `Registry` holds the requirement tables, their defaults, the supported post types and the development domain.

Dates are one of three things: the empty string (`Blank`), the zero-date sentinel `0000-00-00 00:00:00` (`ZeroDate`), or an instant in seconds (`At`). `strtotime` of the sentinel is -62169984000. `strtotime` of a blank GMT date is the current time, so a blank date is never scheduled. The clock, the request's host, the nonce and capability results, and the permalink, preview and edit links are all parameters.

Where the plugin's own comments and docblocks promise more than its code does, the model follows the code:

- A group member counts as present when its meta key is `isset`, meaning stored with at least one value. An empty stored value still counts, whereas the docblock of `get_required_meta_field_groups` (inc/class-publishing-flow-admin.php:1068-1069) says at least one member needs to have a value. `GroupRequirementValue` states what the code does. `GroupFilledIff` gives the exact condition: two present members always satisfy a group, because `implode` leaves ", " behind, and a single present member labelled "0" does not. `GroupIsOrOfMembers` proves OR over member keys that are set (`isset`, not non-empty values), for groups whose member labels are real labels. `EmptyStoredValueSatisfiesGroup` exhibits the difference: a group whose only stored member holds "" is satisfied.
- Group labels are copied verbatim and may be unset. Field and taxonomy labels fall back to the key.
- `postDatePast` tests only the exact sentinel, while the publish handler and the redirect also treat an empty GMT date as unset. `PastFlagVersusDecision` proves that the two disagree exactly on a blank GMT date.
- The handler's not-found guard tests `is_wp_error`, so the lookup result is either a post or an error value (`Lookup`).
- A failing nonce makes `check_ajax_referer` die with `-1`, not with a JSON error.
- The handler never checks what `wp_update_post` or `wp_publish_post` return, so no "transition failed" response exists.
- Readiness is not re-checked by the handler.

## Model

| member | source | states |
|---|---|---|
| PhpValues.JoinEmptyIff | inc/class-publishing-flow-admin.php:463-468 | `empty(implode(', ', xs))` holds iff the list is empty, or it has one element that is "" or "0"; two or more elements are never empty |
| PhpValues.IntToStringRoundTrip | inc/class-publishing-flow-admin.php:293-297 | the post id rendered into the URL is an optional minus sign and digits, and parses back to the same id |
| Registry.DefaultTables | inc/class-publishing-flow-admin.php:1007-1121 | without filters, exactly `post_title` and `post_content` are required, each with a non-empty label; the other seven tables are empty |
| Registry.IsSupportedPostType | inc/class-publishing-flow-admin.php:1144-1154 | a type is supported exactly when some entry of the (filtered) list equals it |
| Registry.DefaultSupportedPostTypes | inc/class-publishing-flow-admin.php:1144-1154 | without filters, exactly the types `post` and `page` are supported |
| Posts.IfScheduledPost | inc/class-publishing-flow-admin.php:246-259 | a blank GMT date is never scheduled; a real GMT date is scheduled iff it is strictly later than now |
| Posts.ScheduledIffFuture | inc/class-publishing-flow-admin.php:252-258 | for any clock after year zero: scheduled iff the GMT date is a real instant strictly after now; a date equal to now is not scheduled |
| Posts.Decide | inc/class-publishing-flow-admin.php:939-974 | scheduled exactly when `if_scheduled_post` holds; immediate only for an empty or sentinel GMT date; backdated only for a real GMT date at or before now |
| Posts.PostDatePast | inc/class-publishing-flow-admin.php:564-573 | "1" exactly when the post is not scheduled and its GMT date is not the sentinel; for a real GMT date, "1" exactly when it is at or before now |
| Posts.DecideByDate | inc/class-publishing-flow-admin.php:939-974 | the handler's classification: immediate iff the GMT date is empty or the sentinel; scheduled iff it lies in the future; backdated iff it is at or before now |
| Posts.PastFlagVersusDecision | inc/class-publishing-flow-admin.php:565-573 | `postDatePast` is "1" iff the post is backdated or its GMT date is blank; a blank date is flagged past even though the handler publishes it immediately |
| Snapshot.NormalizeTitle | inc/class-publishing-flow-admin.php:322-326 | a title of exactly "Auto Draft" reads as ""; any other title, and every other column, id, status and date, is unchanged |
| Snapshot.NormalizeTitleIdempotent | inc/class-publishing-flow-admin.php:324-326 | normalising the title twice is the same as normalising it once |
| Snapshot.FlattenMeta | inc/class-publishing-flow-admin.php:328-338 | every stored key stays; a key is set iff it is stored with at least one value, and a set key holds its first value |
| Snapshot.TermNamesOfDistinct | inc/class-publishing-flow-admin.php:357-359 | terms with distinct ids give their names in the order `get_the_terms` returned them |
| Snapshot.TermMap | inc/class-publishing-flow-admin.php:340-360 | a taxonomy appears iff it belongs to the post type and has at least one term attached; taxonomies without terms are omitted, and every entry is non-empty |
| Snapshot.Decorate | inc/class-publishing-flow-admin.php:389-403 | the label is the requirement's own label when that is truthy, otherwise the key; the has/no-value texts are the requirement's texts or "" and never "0"; the value and `showValue` pass through |
| Snapshot.DecorateGroup | inc/class-publishing-flow-admin.php:455-477 | a group keeps its declared label (no fallback) and its member keys in order; each text is the group's own text when truthy and "" otherwise; `showValue` passes through; the value joins the labels of the present members |
| Snapshot.GroupFilledIff | inc/class-publishing-flow-admin.php:463-468 | a group's value passes `empty()` iff two or more members are present, or exactly one is present and its label is neither "" nor "0" |
| Snapshot.GroupIsOrOfMembers | inc/class-publishing-flow-admin.php:463-468 | when all member labels are real labels, a group passes iff at least one member key is set (isset) |
| Snapshot.Build | inc/class-publishing-flow-admin.php:378-544 | each of the eight maps has exactly one entry per requirement of its table, and no other entries; each entry is its requirement decorated with the column, first meta value, joined member labels or joined term names it reads |
| Readiness.AllHaveValues | inc/class-publishing-flow-admin.php:637-642 | the scan-with-break over one map, visiting keys in any order, returns true iff no value is empty under `empty()` |
| Readiness.CheckRequirementsMet | inc/class-publishing-flow-admin.php:634-669 | the four-phase check with early exits returns true iff every required primary, meta, group and taxonomy value is non-empty; neither category order nor the early exits change the result |
| Readiness.OptionalNeverBlocks | inc/class-publishing-flow-admin.php:546-547 | the verdict depends only on the four required maps |
| Readiness.NothingRequiredIsReady | inc/class-publishing-flow-admin.php:634-669 | when all four required maps are empty, the post is ready |
| Readiness.NotReadyIffSomeEmpty | inc/class-publishing-flow-admin.php:634-669 | not ready iff some required entry in some category has a value that is null, "", "0" or the empty list |
| Readiness.ApplyDevOverride | inc/class-publishing-flow-admin.php:552-556 | after the override, the requirements count as met iff they were met or the request host is exactly the development domain; the override never turns met into unmet |
| DataArray.BuildData | inc/class-publishing-flow-admin.php:546-573 | `requirementsMet` is 1 iff the snapshot is ready or the host equals the development domain; `scheduled` is 1 iff the stored post is scheduled; `postDatePast` is "1" iff the post is not scheduled and its GMT date is not the sentinel |
| DataArray.PrimaryRequirementValue | inc/class-publishing-flow-admin.php:389-403 | a required primary field reads the stored column, or null when it is missing; the title reads "" when it is exactly "Auto Draft" |
| DataArray.MetaRequirementValue | inc/class-publishing-flow-admin.php:421-437 | a required meta field reads the first value stored under its key, or null when the key is absent or has no values |
| DataArray.GroupRequirementValue | inc/class-publishing-flow-admin.php:455-478 | a group's value is the ", "-join, in declared order, of the labels of members stored with any value, read from the raw metadata |
| DataArray.TaxonomyRequirementValue | inc/class-publishing-flow-admin.php:503-523 | a required taxonomy reads the ", "-join of the attached term names, or the empty list when the taxonomy is not the type's or has no terms |
| DataArray.EmptyStoredValueSatisfiesGroup | inc/class-publishing-flow-admin.php:463-468 | a group with members `a` "Alpha" and `b` "Beta", where only `a` is stored and its value is "", has the value "Alpha" and so passes, although no member has a value |
| DataArray.DefaultReadyIff | inc/class-publishing-flow-admin.php:1007-1024 | with the default tables, a post is ready iff its title is present, is not "Auto Draft" and is non-empty, and its content is present and non-empty |
| DataArray.DefaultDevDomainNeverOverrides | inc/class-publishing-flow-admin.php:1128-1137 | with the default empty development domain and a real host, `requirementsMet` is exactly the verdict |
| PublishFlow.Transition | inc/class-publishing-flow-admin.php:939-982 | id, type and columns are kept; the outcome is `scheduled` exactly when `if_scheduled_post` holds, with status `future`, else `publish`; the dates change only for an empty or sentinel GMT date, and then to now (local and GMT) on publish |
| PublishFlow.PublishPost | inc/class-publishing-flow-admin.php:897-998 | success iff the nonce, user, id, capability, lookup and status guards all pass; every failure leaves the stored post unchanged; every success stores exactly the post `Transition` produces, with the matching outcome, and returns the permalink |
| PublishFlow.GuardOrder | inc/class-publishing-flow-admin.php:899-932 | guards run in order, nonce, then user/id/capability, then lookup, then status, and the first failure decides the error and its shape |
| PublishFlow.SecondPublishRejected | inc/class-publishing-flow-admin.php:925-932 | publishing again after a success is rejected as already published or scheduled, with no change, whatever the clock |
| PublishFlow.TransitionByDecision | inc/class-publishing-flow-admin.php:939-982 | scheduled: `future` with both dates kept; immediate: `publish` with both dates stamped now; backdated: `publish` with both dates kept; id, type and columns never change |
| PublishFlow.PublishedNotAhead | inc/class-publishing-flow-admin.php:939-982 | for any clock after year zero, a post this handler publishes always has a real GMT date, never after now |
| PublishFlow.ErrorFieldMarksFailure | inc/class-publishing-flow-admin.php:906-987 | a JSON body has an `error` field iff it is a failure, has `status: success` iff it is a success, and a success's outcome is `published` or `scheduled` |
| CustomizerUrl.EncodeBytes | inc/class-publishing-flow-admin.php:272-283 | an encoded value contains only unreserved characters, `+` and `%`, so it cannot break the query string |
| CustomizerUrl.DecodeEncode | inc/class-publishing-flow-admin.php:272-283 | `urldecode` of `urlencode` gives back every byte |
| CustomizerUrl.AddFreshKey | inc/class-publishing-flow-admin.php:272-297 | adding a new key to a query whose values survive re-encoding appends exactly that parameter and leaves the rest unchanged |
| CustomizerUrl.AddQueryArgsAppend | inc/class-publishing-flow-admin.php:272-297 | consecutive `add_query_arg` calls with distinct new keys and values that survive re-encoding append those parameters in call order and leave the existing query untouched |
| CustomizerUrl.BuildCustomizerUrl | inc/class-publishing-flow-admin.php:268-305 | the Customizer URL carries exactly, in order, `url` (the encoded preview link), `return` (the encoded edit link), `publishing-flow=true` and `post-id` |
| CustomizerUrl.CustomizerUrlCarriesLinks | inc/class-publishing-flow-admin.php:268-305 | decoding the URL's parameters gives back the preview and edit links byte for byte and the post id |
| CustomizerUrl.CustomizerUrlText | inc/class-publishing-flow-admin.php:268-305 | the link prints as the admin URL, `?` and the four pairs joined by `&`; the flag and id keep their `=`, and an empty edit link leaves `return` bare |
| CustomizerUrl.CustomizerRedirect | inc/class-publishing-flow-admin.php:170-185 | only `pf-action` exactly `enter-publishing-flow` redirects, to the Customizer URL; the local date is bumped to now exactly when the action matches and the GMT date is empty or the sentinel, and otherwise the post is unchanged; the GMT date, status and columns never change |

## Left out

- The Customizer script (`js/publishing-flow-customizer.js`), the HTML templates, script and style enqueueing, the requirements box markup and the Customizer section/panel removal. These are host UI glue with no logic to verify.
- The filters (`apply_filters`). The eight tables, the post types and the development domain are inputs. The URL and data-array filters are the identity.
- The actions (`do_action('publishing_flow_post_published')`, `wp_transition_post_status`). They only notify other code.
- Nonce and capability checks. They are boolean inputs of the request.
- Store writes (`wp_update_post`, `wp_publish_post`). Only their effect on the status and the two dates is modelled, and their return values are ignored just as the code ignores them.
- `get_post` returning null for an unknown id. The code only tests `is_wp_error`, and the host's capability check refuses unknown ids first.
- The display filtering of `get_post(…, 'display')`. Posts are taken as stored.
- `strtotime` parsing and `current_time` formatting of MySQL datetimes. Dates are integer seconds plus the two unset forms, and the local time is `now + offset`.
- `get_the_date` formatting, the nonce, the edit link and the translated labels of the data array. These are opaque presentation strings.
- The `$_POST` `mm`/`jj`/`aa` values faked for other plugins.
- The race between two concurrent publish requests. This is concurrency.
- The display order of the eight maps. PHP arrays are ordered but the tables are Dafny maps; order only affects display, and the verdict is proved independent of it.
- `in_array`'s loose comparison in `is_supported_post_type`. It differs from equality only when both strings are numeric, which post type names are not.
- `get_the_terms` returning a `WP_Error`. Terms are a list, and an empty list means none.
- `wp_parse_str`'s rewriting of keys (dots, spaces, brackets) in `add_query_arg`. The base URL is taken to have no query or fragment of its own.
- `show_value` is taken as a boolean rather than an arbitrary PHP value.
- Reading the typed columns (id, status, type, dates) as primary requirement fields. Primary requirements read the textual columns.
- Snapshot.Field: a primary key that is not a column reads `null`, whereas `WP_Post`'s magic getter would return `get_post_meta($id, $key, true)` ("" when absent). WordPress core's `WP_Post` is not part of this model; only column keys are read as primary requirements.
- `add_query_arg` is WordPress core; its re-parse, re-encode, put-or-append and `=(&|$)` clean-up are modelled from its documented behaviour, not from its code.
