/** The readiness verdict (`check_requirements_met`) and the development
    domain override applied after it. */
module Readiness {
  import opened PhpValues
  import opened Snapshot

  /** The values of a primary, meta or taxonomy map. */
  function EntryValues(entries: map<string, Entry>): (values: map<string, Value>)
    ensures values.Keys == entries.Keys
    ensures forall k :: k in entries ==> values[k] == entries[k].value
  {
    map k | k in entries :: entries[k].value
  }

  /** The values of a group map: each group's joined member labels. */
  function GroupValues(entries: map<string, GroupEntry>): (values: map<string, Value>)
    ensures values.Keys == entries.Keys
    ensures forall k :: k in entries ==> values[k] == Str(entries[k].value)
  {
    map k | k in entries :: Str(entries[k].value)
  }

  /** No value of the map is empty under `empty()`. */
  predicate AllFilled(values: map<string, Value>) {
    forall k :: k in values ==> !IsEmpty(values[k])
  }

  /** The verdict as a plain conjunction over the four required maps. */
  predicate Ready(s: Snapshot) {
    && AllFilled(EntryValues(s.requiredPrimary))
    && AllFilled(EntryValues(s.requiredMeta))
    && AllFilled(GroupValues(s.requiredGroups))
    && AllFilled(EntryValues(s.requiredTaxonomies))
  }

  /** One `foreach … if (empty($arr['value'])) { …; break; }` scan. The keys
      are visited in an arbitrary order, so the result holds for every order. */
  method AllHaveValues(values: map<string, Value>) returns (ok: bool)
    ensures ok <==> AllFilled(values)
  {
    ok := true;
    var remaining := values.Keys;
    while remaining != {}
      invariant remaining <= values.Keys
      invariant forall k :: k in values && k !in remaining ==> !IsEmpty(values[k])
      decreases remaining
    {
      var k :| k in remaining;
      if IsEmpty(values[k]) {
        ok := false;
        break;
      }
      remaining := remaining - {k};
    }
  }

  /** `check_requirements_met`: primary, then meta, then groups, then
      taxonomies, each category scanned only while everything before it
      passed. Neither that order nor the early exits change the verdict. */
  method CheckRequirementsMet(
    reqPrimary: map<string, Entry>,
    reqMeta: map<string, Entry>,
    reqGroups: map<string, GroupEntry>,
    reqTaxonomies: map<string, Entry>)
    returns (met: bool)
    ensures met <==> Ready(Snapshot(reqPrimary, map[], reqMeta, map[], reqGroups, map[], reqTaxonomies, map[]))
  {
    met := AllHaveValues(EntryValues(reqPrimary));
    if met {
      met := AllHaveValues(EntryValues(reqMeta));
    }
    if met {
      met := AllHaveValues(GroupValues(reqGroups));
    }
    if met {
      met := AllHaveValues(EntryValues(reqTaxonomies));
    }
  }

  /** The verdict reads only the required maps: the optional ones never block publishing. */
  lemma OptionalNeverBlocks(s: Snapshot, t: Snapshot)
    requires s.requiredPrimary == t.requiredPrimary && s.requiredMeta == t.requiredMeta
    requires s.requiredGroups == t.requiredGroups && s.requiredTaxonomies == t.requiredTaxonomies
    ensures Ready(s) <==> Ready(t)
  {
  }

  /** With nothing required in any of the four categories, the post is ready. */
  lemma NothingRequiredIsReady(s: Snapshot)
    requires s.requiredPrimary == map[] && s.requiredMeta == map[]
    requires s.requiredGroups == map[] && s.requiredTaxonomies == map[]
    ensures Ready(s)
  {
  }

  /** A post is not ready exactly when some required entry, of any category,
      has a value that is `null`, "", "0" or the empty list. */
  lemma NotReadyIffSomeEmpty(s: Snapshot)
    ensures !Ready(s) <==>
      || (exists k :: k in s.requiredPrimary && IsEmpty(s.requiredPrimary[k].value))
      || (exists k :: k in s.requiredMeta && IsEmpty(s.requiredMeta[k].value))
      || (exists k :: k in s.requiredGroups && EmptyString(s.requiredGroups[k].value))
      || (exists k :: k in s.requiredTaxonomies && IsEmpty(s.requiredTaxonomies[k].value))
  {
    if exists k :: k in s.requiredPrimary && IsEmpty(s.requiredPrimary[k].value) {
      var k :| k in s.requiredPrimary && IsEmpty(s.requiredPrimary[k].value);
      assert IsEmpty(EntryValues(s.requiredPrimary)[k]);
    }
    if exists k :: k in s.requiredMeta && IsEmpty(s.requiredMeta[k].value) {
      var k :| k in s.requiredMeta && IsEmpty(s.requiredMeta[k].value);
      assert IsEmpty(EntryValues(s.requiredMeta)[k]);
    }
    if exists k :: k in s.requiredGroups && EmptyString(s.requiredGroups[k].value) {
      var k :| k in s.requiredGroups && EmptyString(s.requiredGroups[k].value);
      assert IsEmpty(GroupValues(s.requiredGroups)[k]);
    }
    if exists k :: k in s.requiredTaxonomies && IsEmpty(s.requiredTaxonomies[k].value) {
      var k :| k in s.requiredTaxonomies && IsEmpty(s.requiredTaxonomies[k].value);
      assert IsEmpty(EntryValues(s.requiredTaxonomies)[k]);
    }
  }

  /** The dev-domain override, applied by the caller after the verdict: the
      requirements count as met when the request's host is exactly the
      development domain (`===`; a request without a host never matches). */
  function ApplyDevOverride(met: bool, devDomain: string, host: Option<string>): (r: bool)
    ensures r <==> met || host == Some(devDomain)
    ensures met ==> r
  {
    if host.Some? && devDomain == host.value then true else met
  }
}
