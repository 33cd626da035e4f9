# Verified model of the Kubernetes API rewriter

The proxy shows its client a cluster in which API groups, kinds, resources, labels, annotations and
finalizers carry other names than in the real one. What the client writes is *renamed* on its way to
the API server; what the server answers is *restored*. This project models the rewriting engine, the
watch loop that drives it and the life cycle of the servers around it, and proves what the client may
rely on: that rename and restore undo each other, that queries, patches, roles and paths keep their
meaning through the renaming, and that nothing is lost, duplicated or left running.

| file | contents |
|---|---|
| `Text`, `Json`, `Paths` | strings, JSON values with get and set, splitting and joining paths |
| `NameRewriting`, `RoundTrips` | the four indexes, the three-layer lookup, preserved names; coherent rules and the two domains |
| `LabelMaps`, `Visibility`, `Selectors` | label maps, under which name a client sees a server label, label selectors |
| `JsonPointer`, `FieldMaps`, `Patches`, `JsonPatches` | pointer tokens, merge patches, JSON Patch |
| `Arrays`, `Transforms`, `Rules`, `Excludes` | array rewriting, field rewriting, the rule set, exclusion |
| `Crd`, `Payload`, `Transparency`, `Lists` | CRDs, the payload dispatcher, whole objects, lists |
| `Results`, `CrdPayloads` | what the rewriters write, field by field, in terms of the rules; CRDs as payloads, alone and in lists |
| `Rbac`, `Endpoints`, `Discovery` | roles, API paths, aggregated discovery |
| `Watch`, `Replays` | the stream loop; what a watching client ends up with |
| `HttpServer`, `RunnableGroup` | start and stop under all interleavings |

Terms used throughout:

- *Coherent rules* (`RoundTrips.Coherent`, `Rules.CoherentRules`): no `=` in names and no `/` in
  prefixes, nothing starts with `preserved-original-`, each index and its reverse are mutually
  inverse, no renamed entry is itself original, an exact name under a ruled prefix agrees with the
  prefix rule; groups and plurals are unique and keyed by their own names. Discovery, CRDs and paths ask
  less of the groups (`Rules.OwnNames`, `Rules.RenamesApart`): several original groups may share one
  renamed group, which is the case that regrouping is written for.
- *Names follow* (`RoundTrips.NamesFollow`): a value rule leads to the name that its own name leads to
  without a value. It is *on top* of a name or prefix rule (`RoundTrips.ValueRulesOnTop`), or it keeps
  the name, as `app.kubernetes.io/managed-by=cdi-operator` does, and then coherence leaves no name or
  prefix rule for that name.
- *Server domain*, *client domain*: the name/value pairs that may occur on either side.
- *Twins* (`LabelMaps.Twins`): a name that renaming leaves alone, together with its preserved form.
- *Steady* (`Visibility.Steady`): a client's name under which it sees whatever the server holds at the
  renamed name. With value rules on top every name of the client's domain is steady; a name that a
  value rule keeps is not.

Round trips alone do not say where a name is in between. `Results`, `Crd` and the lemmas beside the
round trips state what is written in terms of the rules alone: the prefix put before a kind or taken
from it, the group looked up in the index, the name that the rule lists give, and every other field as
it was.

Where a desirable property does not hold of the code, the project keeps the code's behaviour, gives a
witness, and proves the exact condition:

- A pair that holds a renamed name with a rule's original value (or the reverse) does not survive a
  round trip; every other pair does (`ServerRoundTrip`, `ClientRoundTrip`, `ShadowedPairsBreak`).
- Restoring merges server labels for some map exactly when some value rule leads elsewhere than its
  name (`NothingMergesExactly`); which label survives then depends on iteration order
  (`LoneValueRulesMerge`).
- What a client writes is read back exactly when the map holds no twins (`WriteThenRead`,
  `StringMapRoundTrip`, `WholeObjectRoundTrip`).
- `Exists` and `DoesNotExist` keep their meaning exactly where the server's pair shows under the name
  asked for, and on every server map exactly for steady names (`RequirementMeaning`,
  `PresenceExactly`). Under a rule that keeps a name, the server's original pair shows in preserved
  form (`KeptNameRestores`).
- A merge patch commutes with renaming, in whatever order the renamed map is written, exactly when no
  value in it has a rival (another key for the same server label) and every server label it touches
  shows under a key of the patch (`LabelsMergeCommutes`, `MergePatchCommutes`). With value rules on top
  it always does (`OnTopIsSettled`). Under a rule that keeps a name, deleting both forms of it is safe,
  and a value beside the other form never is (`TwinNullsDelete`, `ValueBesideTwin`).
- Match labels keep their meaning exactly when they hold no twins (`MatchLabelsExactly`).
- A CRD through the whole payload rewriter comes back, alone or in a list, exactly when its group and six
  names agree with the rule and its labels and annotations hold no twins (`CrdPayloadRoundTrip`,
  `CrdListRoundTrip`).
- A CRD rewritten alone gives what its list holds in its place exactly unless the rewriter leaves it as
  it is: a CRD without a rule stays in the list and comes back empty alone (`CrdAloneExactly`).
- A JSON Patch operation on a member renames the name and not the value. It commutes on every server
  map, leaving a map of the server's domain, exactly when the name is steady and the value is one that
  renaming leaves alone; `test` needs only the second, `remove` only the first (`MemberExactly`,
  `OnTopFits`, `ValueRuleSplitsTest`). A path below a label is taken for a label name
  (`NestedPathBecomesMember`).
- A role that names a ruled and an unruled group together loses the unruled group's resource of the
  same name and gains the one of the renamed name (`MixedRuleLosesGrant`, `MixedRuleGainsGrant`,
  `UnruledGroupExactly`).
- Aggregated discovery emits a group with an empty name exactly when some named version holds a
  resource without a rule (`EmptyGroupExactly`).
- An empty group of runnables never returns (`StuckExactlyWhenEmpty`).
- A cluster-scoped path with anything after NAME/SUBRESOURCE is not printed back (`PrintUndoesParse`).
- An object that becomes excluded after it was shown stays with a watching client
  (`ShownThenHiddenIsStale`, `WatchAgrees`). The stream does not
  turn a change of status into a deletion.
- A second successful `Start` of one server leaves the first instance running after `Stop`
  (`SecondStartEscapesStop`, `StopShutsTheLatest`). While the first instance listens, a second
  `net.Listen` succeeds only on an address that can be bound twice, such as port 0; on a fixed port the
  first instance must have stopped listening before.

`dafny verify dfyconfig.toml` checks the whole project.

## Model

| member | source | states |
|---|---|---|
| NameRewriting.IndexRules | pkg/rewriter/prefixed_name_rewriter.go:255-266 | the loop builds the index in which the last rule for a key wins |
| NameRewriting.IndexRulesReverse | pkg/rewriter/prefixed_name_rewriter.go:268-279 | the loop builds the index of the flipped rule list |
| NameRewriting.SplitOfJoin | pkg/rewriter/prefixed_name_rewriter.go:281-288 | a joined name and value come apart again, whatever the value, if the name holds no `=` |
| NameRewriting.IndexesRefineScan | pkg/rewriter/prefixed_name_rewriter.go:160-215 | for every rule list with `=`-free names, rename and restore through the indexes are the same as scanning the list for the last value rule, else the last name rule, else the last prefix rule |
| RoundTrips.ServerRoundTrip | pkg/rewriter/prefixed_name_rewriter.go:188-241 | for coherent rules, renaming what was restored gives the pair back exactly on the server domain, across all three layers and preserved names |
| RoundTrips.ClientRoundTrip | pkg/rewriter/prefixed_name_rewriter.go:160-241 | for coherent rules, restoring what was renamed gives the pair back exactly on the client domain |
| RoundTrips.RenamedIsNeverOriginal | pkg/rewriter/prefixed_name_rewriter.go:217-241 | what restore would look up as renamed is never taken for an original that needs preserving |
| RoundTrips.ShadowedPairsBreak | pkg/rewriter/prefixed_name_rewriter.go:160-215 | a coherent rule set with a value rule over a name rule: both shadowed pairs fail their round trip |
| RoundTrips.EqualsInNameLeavesScan | pkg/rewriter/prefixed_name_rewriter.go:168-185 | a name that holds `=` is taken for an original by the index exactly when a value rule reads as that name, cut at its first `=`, or the scan finds a prefix rule; no scan of the names finds it |
| RoundTrips.DistinctListsInvert | pkg/rewriter/prefixed_name_rewriter.go:255-279 | a rule list that repeats neither an original nor a renamed key has mutually inverse indexes |
| LabelMaps.RewriteMap | pkg/rewriter/prefixed_name_rewriter.go:135-145 | for every iteration order the result holds a rewritten entry under every rewritten key and nothing else |
| LabelMaps.ReadModifyWrite | pkg/rewriter/prefixed_name_rewriter.go:108-145 | when names follow, restoring a server-domain label map merges no keys, keeps the count, does not depend on iteration order, and renaming the result gives the same map |
| LabelMaps.NothingMergesExactly | pkg/rewriter/prefixed_name_rewriter.go:135-145 | for coherent rules, every server-domain map is restored without merging keys exactly when names follow |
| LabelMaps.WriteThenRead | pkg/rewriter/prefixed_name_rewriter.go:108-145 | a client-domain map is read back unchanged, in every iteration order, exactly when it holds no twins |
| LabelMaps.LoneValueRulesMerge | pkg/rewriter/prefixed_name_rewriter.go:135-145 | a value rule that leads elsewhere than its name: two server labels restore to one key, with two possible outcomes |
| Visibility.RestoredToName | pkg/rewriter/prefixed_name_rewriter.go:188-241 | a server pair is restored to the name a client asks for exactly when the pair is original just as the name is preserved |
| Visibility.SteadyExactly | pkg/rewriter/prefixed_name_rewriter.go:188-241 | a name is steady exactly when no value rule alone decides whether the server's pair is an original one |
| Visibility.OnTopIsSteady | pkg/rewriter/prefixed_name_rewriter.go:188-241 | with value rules on top every name of the client's domain is steady |
| Visibility.KeptNameIsCoherent | pkg/proxy/handler_test.go:806-821 | a value rule that keeps its name is coherent and follows, and is not on top |
| Visibility.KeptNameRestores | pkg/rewriter/prefixed_name_rewriter.go:188-215 | under such a rule the server's original pair shows in preserved form and its renamed pair under the name, which is not steady |
| Selectors.RewriteNameValues | pkg/rewriter/prefixed_name_rewriter.go:116-133 | the loop yields the first new name that differs from the old one, and every value rewritten |
| Selectors.RenameSelector | pkg/rewriter/rule_rewriter.go:179-225 | every requirement is renamed in order and match labels are renamed as a map |
| Selectors.RequirementMeaning | pkg/rewriter/affinity.go:91-109 | when names follow, a requirement holds of the restored labels exactly when the renamed one holds of the server's labels: always for In and NotIn, and for Exists and DoesNotExist exactly when the server's pair shows under the key |
| Selectors.PresenceExactly | pkg/rewriter/affinity.go:91-109 | presence of a name means the same on both sides for every server map exactly when the name is steady |
| Selectors.TwinsAreNeverSeen | pkg/rewriter/prefixed_name_rewriter.go:188-215 | no restored map holds twins, so match labels that ask for both match nothing a client sees |
| Selectors.MatchLabelsExactly | pkg/rewriter/rule_rewriter.go:179-225 | match labels mean the same, for every order of renaming and every server map, exactly when they hold no twins |
| Selectors.SelectorMeaning | pkg/rewriter/rule_rewriter.go:179-225 | for a whole selector with match labels, and every server-domain label map whose pairs show under the keys asked for by presence: it matches the restored labels exactly when the renamed one matches the server's, except that with twins among its match labels it matches nothing a client sees |
| JsonPointer.DecodeUndoesEncode | pkg/rewriter/metadata.go:123-144 | decoding an encoded token gives the string back, and every encoded token is well-formed |
| JsonPointer.EncodeUndoesDecode | pkg/rewriter/metadata.go:123-144 | encoding a decoded token gives the token back exactly when it is well-formed by section 3 of RFC 6901 |
| Patches.LabelsMergeCommutes | pkg/rewriter/map.go:26-49 | when names follow, restoring after the renamed patch of a label map, values renamed, nulls deleting and entries written in any order, is the client's own patch on what it saw, exactly when no value of the patch has a rival and every server label it touches shows under a key of the patch |
| Patches.OnTopIsSettled | pkg/rewriter/map.go:26-49 | with value rules on top both conditions hold for every client-domain patch and every server-domain map |
| Patches.TwinNullsDelete | pkg/rewriter/map.go:26-49 | deleting a name that stays under both its forms commutes whatever the server holds |
| Patches.ValueBesideTwin | pkg/rewriter/map.go:26-49 | a value for such a name beside its preserved form, deleted or not, does not commute in every order |
| Patches.MergePatchCommutes | pkg/rewriter/metadata.go:42-103 | the same if-and-only-if for a whole document and a whole merge patch (section 2 of RFC 7396), for every order of writing its label and annotation maps: labels, annotations, finalizers, owner references and all other fields |
| Patches.PatchIsSent | pkg/rewriter/metadata.go:26-40 | what the metadata rewriter makes of a patch is one of the outcomes the theorem ranges over |
| JsonPatches.JsonPatchCommutes | pkg/rewriter/metadata.go:50-103 | a renamed sequence of add, remove, replace and test operations on labels and annotations (section 4 of RFC 6902), each fitting, fails exactly when the client's fails, and otherwise restores to the client's result |
| JsonPatches.MemberExactly | pkg/rewriter/metadata.go:72-90 | a member operation of a client commutes on every server map, and leaves one, exactly when it fits: a steady name where the member is moved, a value that renaming leaves alone where one is carried |
| JsonPatches.OnTopFits | pkg/rewriter/metadata.go:72-90 | with value rules on top removing always fits; add, replace and test fit exactly when the value is not renamed |
| JsonPatches.NestedPathBecomesMember | pkg/rewriter/metadata.go:72-90 | a path that descends below a label ends up addressing a label exactly when its tail, read as a label name, is renamed; otherwise it stays |
| Results.WholeOpsWritten | pkg/rewriter/metadata.go:57-72 | an operation on all labels, annotations, finalizers, owner references or metadata keeps its path and has its value rewritten by their rules |
| Results.FinalizerOpWritten | pkg/rewriter/metadata.go:92-101 | an operation on one finalizer has the token decoded, renamed and encoded again, and nothing else changed |
| JsonPatches.ValueRuleSplitsTest | pkg/rewriter/metadata.go:72-90 | with a value rule on top the client's test passes and the renamed one fails |
| Arrays.RewriteItems | pkg/rewriter/list.go:50-101 | the buffer holds the bracketed, comma-separated filter-map of the items: replaced, kept, skipped, or nothing at all on an error |
| Arrays.TwoPassesAreOne | pkg/rewriter/list.go:50-101 | two array passes are one pass with the transformers chained |
| Arrays.KeepOrSkipFilters | pkg/rewriter/list.go:50-101 | a transformer that keeps or skips leaves exactly the kept items, and a second pass changes nothing |
| Rules.MapIndexer.AddPair | pkg/rewriter/indexer/map_indexer.go:31-34 | both maps take the pair, each overwriting its own key |
| Rules.IndexInverts | pkg/rewriter/indexer/map_indexer.go:31-58 | after any sequence of pairs with distinct originals and distinct renames the two maps are mutually inverse |
| Rules.IndexIgnoresOrder | pkg/rewriter/rules.go:64-68 | the same pairs in any order give the same index |
| Rules.GroupsRestoredExactly | pkg/rewriter/indexer/map_indexer.go:36-48 | every original group restores to itself exactly when no two share a renamed group |
| Rules.ApiVersionRoundTrip | pkg/rewriter/rules.go:268-294 | an apiVersion with any version suffix comes back exactly when its group is not just a renamed name |
| Rules.FindByPlural | pkg/rewriter/rules.go:225-237 | the search finds a rule exactly when the name before the first slash is a ruled plural |
| Rules.SubresourceShares | pkg/rewriter/rules.go:209-223 | a resource of a group, with or without a subresource and a version, has the rule that is listed under its plural in that group, and none otherwise |
| Excludes.RewriteRules.Init | pkg/rewriter/rules.go:47-69 | the rewriters are built from the rule lists, the original kinds are excluded, the groups are indexed in some order |
| Excludes.InitIndex | pkg/rewriter/rules.go:64-68 | in every order the group index maps each group to its rename, and back |
| Excludes.ExtendedDecision | pkg/rewriter/rules.go:346-405 | after Init an object is excluded exactly when it was before or its kind is an original kind or list kind |
| Excludes.Match | pkg/rewriter/rules.go:358-405 | a rule matches exactly when its kinds are empty or hold the kind, its names are empty or hold the name, and every label it wants has the wanted value |
| Excludes.ExcludedExactly | pkg/rewriter/rules.go:346-405 | an object is excluded exactly when some rule matches its kind, its name and its labels in this sense |
| Excludes.InitIsIdempotent | pkg/rewriter/rules.go:47-69 | running Init again changes no exclusion decision |
| Excludes.FilteredList | pkg/rewriter/rule_rewriter.go:350-381 | a list passes with exactly its items that match no exclude rule, unchanged and in order |
| Excludes.FilterIsIdempotent | pkg/rewriter/rule_rewriter.go:350-381 | filtering never fails, and filtering again is a no-op |
| Transforms.StringMapRoundTrip | pkg/rewriter/map.go:26-49 | a client's string map field, with null values or not an object at all, comes back from the server unchanged exactly when it holds no twins |
| Results.LabelsWritten | pkg/rewriter/map.go:26-49 | in both directions a label or annotation map holds an entry under every rewritten name and nothing else, each with the rewritten value of an entry that leads there, null staying null where no value is given; anything but an object stays |
| Results.FinalizerScanned | pkg/rewriter/metadata.go:117-121 | a finalizer becomes the name that reading the rule lists gives, renaming and restoring |
| Results.OwnerRenamed | pkg/rewriter/gvk.go:32-69 | a client's owner reference of a ruled kind or list kind gets the prefixed kind and the renamed group with the same version, and keeps every other field |
| Results.OwnerRestored | pkg/rewriter/gvk.go:50-68 | the server's owner reference of a renamed kind gets the original kind and group back, and keeps every other field |
| Results.UnruledOwnerStays | pkg/rewriter/gvk.go:38-62 | without a rule for its kind in its group, or with a group that nobody renames, an owner reference stays as it is |
| Results.OwnerWritten | pkg/rewriter/gvk.go:32-69 | for every value and both directions: both fields by the rules when a rule knows the original kind in the original group, otherwise nothing |
| Results.MetadataWritten | pkg/rewriter/metadata.go:26-40 | labels, annotations, finalizers and owner references each become what their own rules say, item by item and in order; absent fields stay absent and all other fields stay |
| Results.MetadataFinished | pkg/rewriter/rule_rewriter.go:308-316 | the last step rewrites the metadata of an object, or of each item of a list, and nothing else |
| Results.CustomResourceWritten | pkg/rewriter/resource.go:24-117 | a payload of a ruled kind, in both directions: kind by the prefix, group by the index, metadata and its managed fields by their rules, all other fields as they were |
| Results.HeaderWritten | pkg/rewriter/resource.go:96-117 | the kind gets or loses the prefix and the apiVersion the renamed or original group, all else stays |
| Results.BuiltInWritten | pkg/rewriter/rule_rewriter.go:238-316 | a payload of a built-in kind: its own field goes through the kind's rewriter, then its metadata is rewritten, and nothing else changes |
| Results.MonitorWritten | pkg/rewriter/rule_rewriter.go:238-316 | the same for a single ServiceMonitor and its spec |
| Results.UnruledWritten | pkg/rewriter/resource.go:24-50 | a kind that neither a rule nor a built-in rewriter knows has its metadata rewritten and nothing else |
| Results.SpecialWritten | pkg/rewriter/rule_rewriter.go:229-262 | discovery kinds and AdmissionReview are never excluded and go through their own rewriters |
| Crd.CrdRoundTrip | pkg/rewriter/crd.go:59-224 | a ruled CRD is always renamed, its renamed form is never skipped, and it comes back unchanged exactly when its group and six names agree with the rule, categories being null where the rule has none; groups may share a rename |
| Crd.CrdIsRenamed | pkg/rewriter/crd.go:142-224 | a ruled CRD is named prefix, plural, dot, renamed group; spec.group becomes the renamed group; each of the six names that is there becomes the prefix and the rule's name, short names as a list, categories as the rules' list; absent names stay absent and all other fields stay |
| Crd.CrdIsRestored | pkg/rewriter/crd.go:59-140 | a renamed CRD is named plural, dot, original group again; spec.group and the six names are set, all other fields stay |
| Crd.RestoredToTheRule | pkg/rewriter/crd.go:89-127 | the six names restored are the rule's own exactly when none of them starts with its own non-empty prefix |
| Crd.RenameCrdOutcome | pkg/rewriter/crd.go:142-166 | renaming fails on a name without a dot and otherwise touches exactly the CRDs that a rule of their group knows |
| Crd.RestoreCrdOutcome | pkg/rewriter/crd.go:59-81 | restoring fails on a name without a dot, skips exactly the CRDs of original groups, and leaves as they are exactly those of other groups that nobody renames or whose plural no rule knows |
| CrdPayloads.CrdIsSent | pkg/rewriter/crd.go:32-46 | as a payload a ruled CRD is sent under its renamed name with the renamed spec and then the rewritten metadata |
| CrdPayloads.CrdPayloadRoundTrip | pkg/rewriter/crd.go:32-224 | what was sent, restored as a payload, is the client's CRD exactly when the CRD agrees with its rule and holds no twins |
| CrdPayloads.CrdListRoundTrip | pkg/rewriter/crd.go:32-224 | a list of client CRDs, renamed and restored as a payload, is the same list exactly when every item agrees with its rule and holds no twins |
| CrdPayloads.CrdListDrops | pkg/rewriter/crd.go:32-81 | a restored CRD list loses exactly the excluded items and those of original groups; the others follow in order, restored or as they were, with metadata restored; one item that is not excluded and has no dot in its name fails the list |
| Transparency.WholeObjectRoundTrip | pkg/rewriter/rule_rewriter.go:227-316 | a custom resource renamed and restored as a payload is the same object (apiVersion, kind, managed fields, labels, annotations, finalizers, owner references and the rest) exactly when neither labels nor annotations hold twins |
| Transparency.OwnerUndone | pkg/rewriter/gvk.go:32-69 | an owner reference of the client, ruled or not, survives renaming and restoring of its apiVersion and kind |
| Transparency.ManagedUndone | pkg/rewriter/resource.go:133-157 | managed fields come back exactly when every version they name is a string whose group is not a renamed one |
| Transparency.CustomResourcePayload | pkg/rewriter/resource.go:24-117 | rewriting a custom resource touches apiVersion, kind and metadata, each on its own, and nothing else |
| Lists.BuiltInListIsPointwise | pkg/rewriter/list.go:29-48 | rewriting a list of a built-in kind is rewriting each item alone and dropping the skipped ones |
| Lists.BuiltInKindsAreListed | pkg/rewriter/rule_rewriter.go:238-300 | every built-in kind of the dispatcher other than CustomResourceDefinition and ServiceMonitor is of that form |
| Lists.CrdListRewritten | pkg/rewriter/crd.go:32-46 | a CRD list, whatever its items, is rewritten by one pass that excludes, renames or restores, skips or fails, and rewrites metadata, item by item in order |
| Lists.CrdListIsPointwise | pkg/rewriter/crd.go:32-46 | when no item is left as it is, that is rewriting each CRD alone and dropping the skipped ones, failing when one fails |
| Lists.CrdAloneExactly | pkg/rewriter/crd.go:59-81 | a CRD rewritten alone gives what the list holds in its place exactly unless the rewriter leaves it as it is; then it stays in the list and is empty alone |
| Lists.CustomListIsPointwise | pkg/rewriter/resource.go:24-94 | the same for lists of custom resources, whose own apiVersion and kind are rewritten |
| Rbac.RenameResourceRule | pkg/rewriter/rbac.go:83-118 | the two passes with their captured flag rename every ruled group, and ruled resources only beside a ruled group or `*` |
| Rbac.RestoreResourceRule | pkg/rewriter/rbac.go:121-159 | the same for restoring |
| Rbac.GrantsPreserved | pkg/rewriter/rbac.go:83-118 | a client's rule grants a pair exactly when the renamed rule grants the renamed pair, for every resource of a ruled group and every resource without a rule, subresources and wildcards included |
| Rbac.RuledGrant | pkg/rewriter/rbac.go:83-118 | for a ruled group and resource: the rule grants the pair exactly when the renamed rule grants the renamed group and the prefixed resource |
| Results.RuleWritten | pkg/rewriter/rbac.go:83-159 | in both directions every group is looked up in the index, and beside a group of the index or `*` every resource whose original plural some rule knows gets or loses the prefix; all other entries stay |
| Rbac.UnruledGroupExactly | pkg/rewriter/rbac.go:83-118 | under a group without a rule, a ruled or an already renamed resource name keeps its grants exactly unless the rule also touches a ruled group or `*`, has no wildcard for the resource, and names just one of the resource and its unprefixed form |
| Rbac.RuleRoundTrip | pkg/rewriter/rbac.go:83-159 | restoring a renamed rule gives the rule back, entry by entry |
| Rbac.MixedRuleLosesGrant | pkg/rewriter/rbac.go:83-118 | a rule over a ruled and an unruled group loses a grant |
| Rbac.MixedRuleGainsGrant | pkg/rewriter/rbac.go:83-118 | the same rule gains the unruled group's resource of the renamed name |
| Endpoints.PathItems.Shift | pkg/rewriter/api_endpoint.go:298-313 | the first item is taken off, and the last one is announced |
| Paths.TrimExactly | pkg/rewriter/api_endpoint.go:93-94 | only slashes are taken off the two ends of a path, and all of them |
| Endpoints.ParseAPIsEndpoint | pkg/rewriter/api_endpoint.go:190-260 | the step-by-step parser puts every segment where the positional reading puts it |
| Endpoints.Path | pkg/rewriter/api_endpoint.go:267-296 | the loop prints the non-empty parts in order |
| Endpoints.PrintUndoesParse | pkg/rewriter/api_endpoint.go:87-127 | an /apis path is printed back without its outer slashes exactly when its segments are non-empty and it is namespaced or ends with NAME/SUBRESOURCE |
| Endpoints.RewriteThenReparse | pkg/rewriter/rule_rewriter.go:44-149 | a ruled path always is rewritten: the renamed group and the prefixed type in their segments, or the prefixed plural and the renamed group in the CRD's name, the query's label selector rewritten, no other segment touched; parsed again it is the rewritten endpoint with version, namespace, subresource, remainder and a resource's name as before |
| Endpoints.CrdPathRenamed | pkg/rewriter/rule_rewriter.go:80-107 | the path of a ruled CRD named PLURAL.GROUP ends in the prefixed plural, a dot and the renamed group |
| Endpoints.RuledEndpoint | pkg/rewriter/rule_rewriter.go:109-149 | a custom resource's path is rewritten exactly when its group, and its resource type if it has one, have a rule |
| Endpoints.RuledCrdEndpoint | pkg/rewriter/rule_rewriter.go:80-107 | a CRD's path is rewritten exactly when its name is a ruled plural and its group |
| Endpoints.UnruledPathStays | pkg/rewriter/rule_rewriter.go:44-78 | without a rule no segment changes, and the endpoint is left alone unless its label selector is rewritten |
| Endpoints.CrdListPathStays | pkg/rewriter/rule_rewriter.go:80-98 | the path of all CRDs stays; its field selector is rewritten, then its label selector |
| Endpoints.OtherPathsStay | pkg/rewriter/rule_rewriter.go:44-78 | root, core and unknown paths stay, and only their label selector is rewritten |
| Endpoints.RootExactly | pkg/rewriter/api_endpoint.go:88-104 | a path is the root exactly when it holds nothing but slashes |
| Discovery.BuildArray | pkg/rewriter/discovery.go:265-312 | the builder's buffer is the bracketed array of the non-empty parts |
| Discovery.RestoreAggregatedGroupDiscovery | pkg/rewriter/discovery.go:378-464 | nothing comes back without versions or when a resource of a named version fails to restore; otherwise for every group and version the output holds exactly the restored resources filed there, in input order, no group or version twice and none empty |
| Discovery.SameGroupsEmitted | pkg/rewriter/discovery.go:429-464 | groups, versions and resources emitted do not depend on map iteration order |
| Discovery.NoneLost | pkg/rewriter/discovery.go:378-464 | over the groups and versions of the output there are as many filed resources as the named versions of the input hold: none lost, none duplicated |
| Discovery.WhereItBelongs | pkg/rewriter/discovery.go:493-505 | a resource goes to a group exactly when the group rules the plural it stands for, and to the empty group, with no text, exactly when none does; groups may share a rename |
| Discovery.DiscoveryByRules | pkg/rewriter/discovery.go:378-464 | under each original group and version the output holds exactly the restored resources that the rules give to that group, in input order; a group without a rule is not there; original groups behind one renamed group are told apart |
| Discovery.EmptyGroupExactly | pkg/rewriter/discovery.go:400-464 | the group with the empty name is emitted exactly when some named version holds a resource without a rule, and its versions hold empty arrays |
| Discovery.DiscoveryResourceRestored | pkg/rewriter/discovery.go:493-574 | a renamed resource goes to its original group under its original plural; its response kind gets the original group and kind and keeps its other fields, and so does the response kind of each subresource, in order; singular and short names lose their prefix where they have it, an empty singular name stays, categories are the rule's; absent fields stay absent and all other fields stay |
| Watch.StreamRewriter.Stop | pkg/proxy/stream_handler.go:218-224 | the channel is closed afterwards and never closed twice |
| Watch.StreamRewriter.TakeTurn | pkg/proxy/stream_handler.go:136-214 | one turn: the bytes read are accounted once, a cancelled or failed turn sends nothing, another sends the rewritten event, nothing for a skipped one, the original for a failed one |
| Watch.StreamRewriter.Start | pkg/proxy/stream_handler.go:132-216 | over any stretch of turns what was written is exactly the output of the turns up to the first that ends the loop; it returns exactly when there is one, with the channel closed once |
| Replays.RestoringKeepsKey | pkg/proxy/stream_handler.go:259-310 | restoring a non-CRD object keeps its namespace and name, and skips it exactly when it is excluded |
| Replays.BookmarkRestored | pkg/rewriter/rule_rewriter.go:318-322 | a BOOKMARK event goes on with its kind and apiVersion restored and all else as it was |
| Replays.UndetectablePasses | pkg/proxy/stream_handler.go:259-276 | an event of an unknown type, or whose object has neither apiVersion nor kind, goes on as it is |
| Replays.EventRestored | pkg/proxy/stream_handler.go:283-310 | any other event goes on with its object restored as a payload, not at all when that is skipped, and as it was when that fails |
| Replays.WatchAgrees | pkg/proxy/stream_handler.go:132-310 | in every run, from any store of the target and its image at the client, replaying the sent events gives the restored and filtered image of the target's replayed store exactly when no object was excluded for good after being shown, in particular when exclusion is stable |
| Replays.WatchAgreesWithList | pkg/rewriter/rule_rewriter.go:350-381 | then the watching client's store is the store of the restored list |
| Replays.ShownThenHiddenIsStale | pkg/proxy/stream_handler.go:180-204 | an object shown, then excluded and deleted, stays in the client's store |
| HttpServer.StopShutsTheLatest | pkg/server/http_server.go:115-147 | in every reachable state where some Stop has returned, exactly the latest instance is shut down; all are exactly when at most one was created |
| HttpServer.NoneCreatedAfterStop | pkg/server/http_server.go:49-75 | from there on no run creates an instance |
| HttpServer.OneStartIsStopped | pkg/server/http_server.go:49-147 | with one Start call and any number of Stop calls, a returned Stop leaves no instance and no serving call on a live one |
| HttpServer.SecondStartEscapesStop | pkg/server/http_server.go:49-147 | a run with two Start calls whose Listen both succeed, in which Stop returns and the first call still serves the first instance |
| RunnableGroup.GroupIsSafe | pkg/server/runnable_group.go:45-90 | in every reachable state the channel was closed at most once, no runnable was stopped twice or before some Start had returned, and when the group returns every runnable was stopped once and its Stop has returned |
| RunnableGroup.GroupIsNeverStuck | pkg/server/runnable_group.go:45-90 | a group with runnables that cannot move is done, waits for the first Start to return, or for some Stop |
| RunnableGroup.StuckExactlyWhenEmpty | pkg/server/runnable_group.go:45-90 | a state in which nothing can ever move before the group has returned is reachable exactly in the empty group |
| RunnableGroup.RunsAreBounded | pkg/server/runnable_group.go:45-90 | every run of a group of n takes at most 7n + 4 steps |

## Left out

- Byte layout of JSON, number formats, duplicate keys and field order: objects are maps, and a composite value read as a string has some fixed, unknown text. Setting a field of an array is not represented.
- Parsing and printing of query strings and selectors, and the fieldSelector expression: label selectors start from their parsed form, and endpoint rewriting takes the query rewriters as parameters.
- Core (`/api`) paths are marked as such and not taken apart; only /apis paths are claimed to print back.
- Inner rewriting of the built-in kinds, the discovery kinds and AdmissionReview: parameters of the dispatcher that name the top-level field a built-in kind is rewritten in. Selector requirements and role rules, which they share, are modelled; affinity traversal is not.
- Excludes.RewriteRules.Init: one exclude rule with every original kind is stated, its order is left open as the maps are ranged over in any order.
- Rules.FindByPlural: which rule is found is left open when two groups rule the same plural, as the map order decides.
- Crd.CrdRoundTrip: assumes spec.names is an object; CRDs without it are not covered, and single CRDs without a rule end in an empty body.
- CrdPayloads.CrdPayloadRoundTrip: the same, for CRDs that no exclude rule matches on their way back.
- Results.BuiltInWritten: what the kind's own rewriter makes of its field is a parameter.
- JsonPatches.JsonPatchCommutes: values written to a member are strings or null; move and copy, and paths into finalizers or owner references, are not covered by it; what their operations become is stated by Results.WholeOpsWritten and Results.FinalizerOpWritten.
- Transparency.WholeObjectRoundTrip: covers ruled kinds that are neither built-in nor end in `List` nor are another rule's list kind, where map order decides how the code reads them.
- Lists.BuiltInListIsPointwise: items carry their own kind; CRD lists have theorems of their own, as a CRD can be skipped or fail by itself; ServiceMonitor lists, which the code treats as a single object, are modelled and not covered.
- Replays.WatchAgrees: writes to the client succeed and watched kinds are not CRDs; a lost write loses its event.
- Names that hold `=` have no round-trip claim, and neither have resource plurals with a wildcard.
- Patches of CRDs, services, pod templates and webhook configurations, and the admission-configuration merge patch.
- The APIGroup, APIGroupList and APIResourceList rewriters and the outer loop over an APIGroupDiscoveryList; a version's freshness is not emitted again and not represented.
- Discovery.RestoreAggregatedGroupDiscovery: restoring one resource and its text are parameters there; DiscoveryByRules takes them from the rules, where setting fields of a JSON value never fails.
- HttpServer.StopShutsTheLatest: Err, TLS setup and the certificate manager are not represented; whether listening succeeds is open at every call.
- HTTP transport, headers, compression, metrics, logging, authentication and settings.
