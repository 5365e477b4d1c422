# A verified model of the External Secrets Operator's reconcilers

The operator keeps Kubernetes Secrets and external secret stores in step while any API or provider call may fail.
This project models the parts of it whose correctness only shows over whole runs, and proves what they keep:

- **PushSecret** (`PushSpec`, `PushRuns`, `PushPhases`, `PushExact`, `PushSecret`). A reconcile pushes entries to stores, records
  them in the status, deletes what is no longer wanted and guards deletion with a finalizer. `PushSecret` is the
  imperative code, with the inner maps of the status as heap objects so that sharing is visible. It refines the
  value-level step `PushSpec.ReconcileStep`. `PushRuns` proves safety over every run of such steps, interleaved with
  any change of the spec, deletion request or finalizer of others.
- **Provider client manager** (`ClientManager`). A cache with one client per provider type that owns what it opens.
- **ExternalSecret** (`ProviderData`, `SecretSync`, `DataHash`, `Conditions`). Source precedence, the skip guarded by a
  hash annotation, and the history of status conditions.
- **Keys and values** (`KeyConversion`, `Decoding`). Key conversion with collision detection, and the Auto decoder
  over the encodings of sections 4 and 5 of RFC 4648.
- **Certificate rotation** (`CertRotation`), with certificates as records of validity, names and keys.
- **Three provider merges** (`GitLab`, `OnePassword`, `Keeper`) against their closed forms.

Go maps are walked in any order: each such loop picks an arbitrary remaining key, so its contract holds for every
order. Which calls to API servers and providers fail is an input of a method or shows in the log of calls it makes, so
a contract also says when a method must succeed. Clock readings never go back and are otherwise arbitrary.

What the model takes as given:

- A rejected provider call changes nothing at the provider. Store kinds and names contain no `/`, as Kubernetes
  demands of names. Distinct stores and remote keys name distinct places at the providers.
- A failed write to the API server (a finalizer, a Secret, a CRD) changes nothing there.
- Nobody else writes the places a PushSecret pushes to, its status or this controller's finalizer, the certificate
  Secret, or the webhook bundles of the CRDs.
- A reconcile reads its object, and the objects it writes, as the API server holds them.
- PushSecret runs have deletion policy Delete throughout; policy None drops stale records on purpose. The deferred
  status patch succeeds in a run; `LostPatchNeverOrphansExactly` and `LostPatchExactly` say what happens when it
  does not.
- ExternalSecret runs use creation policy Owner or Orphan, no template and a set refresh interval; nobody else writes
  the hash annotation, and no two texts hashed in the run have the same digest.
- A store is determined by its kind, namespace, name and generation where `ClientManager.Manager.Get` says so.
- A character class stands for Unicode letters and numbers in key conversion; all that is asked of it is that it
  contains `U` and the hexadecimal digits `0` to `9` and `a` to `f`, which escapes are written with.

Some properties one would expect turn out false of the code. Each has a failing case and the exact condition under
which it holds:

- The finalizer does not protect pushed entries if another controller's finalizer keeps the object alive: after the
  cleanup and the removal of the finalizer, the next reconcile pushes again (`ForeignFinalizerLeaks`). Protection is
  lost exactly in the states that `ProtectionLostExactly` names.
- Losing the status patch orphans entries (`LostPatchOrphans`): after a success exactly when a target was not recorded
  before (`LostPatchExactly`), and after some outcome exactly when something that may be pushed was not
  (`LostPatchNeverOrphansExactly`).
- A cached client for a cluster store may have been built for another namespace (`SharedVault`,
  `SharedAcrossNamespaces`). By the last clauses of `Manager.Get` that is exactly when, by the calls made so far, the
  store was first served to another namespace.
- The Unicode strategy can convert two keys to one text (`UnderscoresCollide`). `AmbiguousExactly` says which keys
  share their text with another; maps whose keys contain no `_U` followed by a digit are safe
  (`UnicodeNeverCollides`).
- A certificate that passes the lookahead check may not have begun (`NotYetBegun`, `CheckedServesExactly`); those made
  here have.
- A CRD's bundle is not always the stored CA: exactly when the CA was replaced since that CRD's own last success it is
  an older one (`StaleBundle`, `BundleCurrentExactly`).
- Keeper's map view and single lookup differ (`OneTimeCodeHidden`) on exactly the keys `ViewsAgreeExactly` names.

## Model

| member | source | states |
|---|---|---|
| PushRuns.NoOrphanAlongRuns | pkg/controllers/pushsecret/pushsecret_controller.go:88-168 | in every state of every run, everything pushed and not yet deleted is recorded in the status, whichever calls failed; the providers' contents are what the calls made of them |
| PushRuns.ReconcileKeepsRecords | pkg/controllers/pushsecret/pushsecret_controller.go:88-168 | no reconcile outcome, partial push, partial prune or partial cleanup loses a record of something still at a provider |
| PushRuns.FinalizerSafety | pkg/controllers/pushsecret/pushsecret_controller.go:100-118 | along every run the finalizer is removed only when no provider holds anything the controller pushed, cleanup retries included |
| PushRuns.GoneMeansClean | pkg/controllers/pushsecret/pushsecret_controller.go:100-118 | when no one else holds a finalizer, a PushSecret is gone only once the providers are clean |
| PushRuns.ProtectedAlongRuns | pkg/controllers/pushsecret/pushsecret_controller.go:100-118 | without other finalizers, the finalizer is present whenever anything pushed remains |
| PushRuns.ForeignFinalizerLeaks | pkg/controllers/pushsecret/pushsecret_controller.go:100-124 | for any store and entry, a run that adds the finalizer, pushes, is deleted, cleans up and removes the finalizer with the providers clean, pushes again because another finalizer keeps the object alive, and ends with the object gone and the entry left behind |
| PushRuns.UnprotectedExactly | pkg/controllers/pushsecret/pushsecret_controller.go:100-167 | a successful reconcile leaves the pushed entries protected if and only if the finalizer was there or there was nothing to push |
| PushExact.ProtectionLostExactly | pkg/controllers/pushsecret/pushsecret_controller.go:88-168 | every outcome of a reconcile keeps a protected state protected if and only if the state is not a deleting one without the finalizer, or no store is resolved, or there is no first entry with a value in the Secret |
| PushRuns.LostPatchHarmless | pkg/controllers/pushsecret/pushsecret_controller.go:82-87 | if the state does not push, or the old status already recorded every target that comes before an entry without a value, losing the status patch of any outcome orphans nothing |
| PushRuns.LostPatchExactly | pkg/controllers/pushsecret/pushsecret_controller.go:82-87 | when the status patch of a successful reconcile is lost, nothing is orphaned if and only if every target was already recorded |
| PushRuns.LostPatchOrphans | pkg/controllers/pushsecret/pushsecret_controller.go:82-87 | a run whose first success, with its status patch lost, leaves an orphan |
| PushExact.LostPatchNeverOrphansExactly | pkg/controllers/pushsecret/pushsecret_controller.go:82-87 | no outcome's lost status patch orphans anything if and only if the state does not push, or every target that comes before an entry without a value is recorded |
| PushExact.ReachStep | pkg/controllers/pushsecret/pushsecret_controller.go:235-261 | from every state that pushes, and for every target before an entry without a value, there is a reconcile that pushes it and leaves it there: it then fails at the next entry, at the client of another store or of a recorded one, or succeeds |
| PushRuns.OutstandingIsAsked | pkg/controllers/pushsecret/pushsecret_controller.go:88-168 | a reconcile leaves outstanding only what was already outstanding or, if the state pushes, a target that comes before an entry without a value |
| PushRuns.Convergence | pkg/controllers/pushsecret/pushsecret_controller.go:138-167 | success leaves outstanding exactly stores times remote keys, each place holding the value of the last entry naming it; the status records exactly those; recorded entries no longer wanted are gone from the providers, and everything else is untouched |
| PushRuns.ConvergenceAlongRuns | pkg/controllers/pushsecret/pushsecret_controller.go:138-167 | after a success in any run, of all that was ever pushed in it the providers hold exactly the targets |
| PushRuns.FailedCleanupForgets | pkg/controllers/pushsecret/pushsecret_controller.go:104-111 | a failed cleanup still records what it deleted only for the one store it was dropping when a delete was rejected |
| PushRuns.FailedPruneForgets | pkg/controllers/pushsecret/pushsecret_controller.go:149-157 | the same of a failed prune, and never for a store that is still wanted |
| PushRuns.RetrySkipsDeleted | pkg/controllers/pushsecret/pushsecret_controller.go:100-118 | along every run a cleanup retried after a failure makes no call for what completed stores had deleted |
| PushRuns.SecondReconcileDeletesNothing | pkg/controllers/pushsecret/pushsecret_controller.go:138-167 | an unchanged second reconcile deletes nothing, however it ends |
| PushRuns.SecondSuccessChangesNothing | pkg/controllers/pushsecret/pushsecret_controller.go:138-167 | an unchanged second success leaves status and provider contents as they are |
| PushSpec.SplitStoreKey | pkg/controllers/pushsecret/pushsecret_controller.go:190-193 | the key "Kind/Name" splits back into the kind and name it was made from |
| PushSpec.ByRemoteKeyLast | pkg/controllers/pushsecret/pushsecret_controller.go:248-258 | of several data entries with one remote key, the recorded one is the last |
| PushSecret.MergeSecretState | pkg/controllers/pushsecret/pushsecret_controller.go:173-185 | the result is the per-store union, old entries winning, and shares no inner map with either argument |
| PushSecret.PushToStore | pkg/controllers/pushsecret/pushsecret_controller.go:248-258 | on every exit the store's map records exactly what was pushed; success means that every entry was; failure means that no client could be had, or that every entry was pushed up to one that has no value or was rejected |
| PushSecret.PushSecretToProviders | pkg/controllers/pushsecret/pushsecret_controller.go:235-261 | on every exit, in any store order, the returned map records exactly the successful pushes; on success it is the wanted map and the providers hold the last values; a failure stopped at one store for one of those causes, with every other store done or not begun |
| PushSecret.DeleteAllSecretsFromStore | pkg/controllers/pushsecret/pushsecret_controller.go:221-229 | deletes only the given keys, all of them on success; it fails exactly at a rejected delete, its last call |
| PushSecret.DeleteSecretFromProviders | pkg/controllers/pushsecret/pushsecret_controller.go:187-219 | on every exit no key of the new map is deleted, and the result is part of the merged map, covers the new map and every old entry not deleted, and has lost every deleted entry but those of a store being dropped when a delete was rejected; on success it has exactly the new map's keys and every stale entry was deleted; a failure is a rejected delete or a recorded store without a client; arguments are unshared and unchanged |
| PushSecret.Reconcile | pkg/controllers/pushsecret/pushsecret_controller.go:61-168 | refines the reconcile step that the run lemmas are about, for every outcome of every call; a read or update is reported as failed exactly when the API server failed it |
| ClientManager.Session | pkg/controllers/secretstore/client_manager.go:76-208 | after any sequence of Get and GetFromStore calls and a Close, every client ever created has been closed exactly once |
| ClientManager.AtMostOneOpen | pkg/controllers/secretstore/client_manager.go:138-163 | at most one client per provider type is open in any valid state |
| ClientManager.Manager.GetStoredClient | pkg/controllers/secretstore/client_manager.go:138-163 | returns the cached client exactly when its store has the same name, namespace, kind and generation; otherwise closes it once and forgets it, touching no other |
| ClientManager.Manager.GetFromStore | pkg/controllers/secretstore/client_manager.go:76-100 | a hit returns the cached client and creates none; a miss returns a new one built for this store and namespace; it fails exactly when there is no provider, or a miss meets a failing NewClient, and then creates none; ownership survives even when the old client was just closed; the client is for the namespace first served by the calls so far |
| ClientManager.Manager.Get | pkg/controllers/secretstore/client_manager.go:106-133 | served exactly when the store can be read, names no class or this one, admits the namespace before a listing fails, is ready if that is demanded, has a provider, and is cached or a client can be made; used with one namespace, the client is one built for the very store requested; in general its namespace is right if and only if the store is namespaced, or by the calls made so far it was not served yet or first to this namespace |
| ClientManager.OpenerMeans | pkg/controllers/secretstore/client_manager.go:138-163 | "the namespace first served", by position: that of the first successful call in the longest trailing block of calls for the provider type that ask for this very store, without a Close |
| ClientManager.Manager.Close | pkg/controllers/secretstore/client_manager.go:195-208 | afterwards every client ever created has been closed exactly once and the cache is empty |
| ClientManager.ShouldProcessSecret | pkg/controllers/secretstore/client_manager.go:210-247 | the answer is whether a namespaced store or some condition admits the namespace, by list or by label; it fails exactly when a listing fails before any condition matches |
| ClientManager.SharedAcrossNamespaces | pkg/controllers/secretstore/client_manager.go:138-163 | for every cache state, store and two namespaces: asked for one and then the other, the manager serves one client, built for whoever it was first served to |
| ClientManager.SharedVault | pkg/controllers/secretstore/client_manager.go:138-163 | an instance: a cluster store asked for by "a" and then by "b" serves "b" the client built for "a" |
| SecretSync.SkipIsSound | pkg/controllers/externalsecret/externalsecret_controller.go:143-167 | along every run a reconcile that skips or syncs leaves the target's data equal to the map of the latest successful sync, whatever was edited or deleted in between |
| SecretSync.SkipIsFresh | pkg/controllers/externalsecret/externalsecret_controller.go:441-455 | along every run a skip leaves what was synced for this very generation and metadata, and with an interval at most the interval ago |
| SecretSync.SkipsUntilDue | pkg/controllers/externalsecret/externalsecret_controller.go:441-455 | after a sync, a reconcile that finds all unchanged skips if and only if there is no interval or it has not passed |
| SecretSync.TiedAlongRuns | pkg/controllers/externalsecret/externalsecret_controller.go:285-300 | along every run the recorded version and the hash annotation of the target belong to the latest sync, lost status patches included |
| SecretSync.Cluster.Reconcile | pkg/controllers/externalsecret/externalsecret_controller.go:133-300 | the outcome and its whole effect on Secrets and status follow from the object, the target, the clock, what was fetched and what the API server allows: skipped exactly when this generation and metadata were synced no longer than the interval ago and the target carries the hash of its data, stopped when immutable and synced, and so on to the write |
| SecretSync.Cluster.CreateOrUpdate | pkg/controllers/externalsecret/externalsecret_controller_template.go:149-157 | a write succeeds exactly when the API server allows it and accepts the keys; it leaves the fetched data and its hash, which no annotation of the object or of others overrides; a failed one changes nothing |
| DataHash.PrintedTextIdentifies | pkg/utils/utils.go:192-195 | two data maps with keys the API server accepts never print as the same text, in whatever order the keys are printed |
| ProviderData.GetProviderSecretData | pkg/controllers/externalsecret/externalsecret_controller_secret.go:41-105 | on success each key has the decoded value of the last data entry there is for it, else of the last dataFrom source producing it, else nothing, and every source was there or, under another policy than Retain, missing; failure means that an entry failed, did not decode or was missing under Retain, or that a source was or breaks at a stage |
| ProviderData.RetainMeansComplete | pkg/controllers/externalsecret/externalsecret_controller_secret.go:41-105 | under deletion policy Retain, success means that no source was missing |
| ProviderData.SuccessMeansFetched | pkg/controllers/externalsecret/externalsecret_controller_secret.go:41-105 | under every policy, success means that no fetch failed and that every data entry that is there decodes |
| ProviderData.LastEntryDecides | pkg/controllers/externalsecret/externalsecret_controller_secret.go:76-105 | the last data entry that is there for a key decides its value |
| ProviderData.HandleSource | pkg/controllers/externalsecret/externalsecret_controller_secret.go:107-231 | each dataFrom source yields a map rewritten or converted, key-checked and decoded in that order, or is missing exactly when the provider has no such secret, or fails only when a stage can fail |
| ProviderData.RewriteMap | pkg/utils/utils.go:42-54 | fails exactly when an expression does not compile; else applies the rewrites in order, each keeping for every new key a value of a key rewritten to it |
| ProviderData.RewriteRegexp | pkg/utils/utils.go:57-68 | the new keys are the rewritten ones, each with the value of some key rewritten to it |
| ProviderData.LastFromMeans | pkg/controllers/externalsecret/externalsecret_controller_secret.go:49-74 | what "the last dataFrom source producing a key" means, by position |
| ProviderData.LastDataMeans | pkg/controllers/externalsecret/externalsecret_controller_secret.go:76-85 | what "the last data entry supplying a key" means, by position |
| ProviderData.DataFromKeysAreValid | pkg/controllers/externalsecret/externalsecret_controller_secret.go:173-231 | a key that comes only from dataFrom is a valid key |
| Conditions.TransitionTimes | pkg/controllers/externalsecret/util.go:34-80 | over any sequence of updates there is one condition per type, and its transition time is that of the first call in the longest trailing block of calls with its status |
| Conditions.UpdateKeepsOthers | pkg/controllers/externalsecret/util.go:47-68 | an update keeps one condition per type and leaves the other types' content and order alone |
| Conditions.FindUpdated | pkg/controllers/externalsecret/util.go:47-68 | what each type's condition is after an update: the new one, with the old time if the status is unchanged |
| Conditions.Object.SetCondition | pkg/controllers/externalsecret/util.go:47-68 | the object's conditions become the updated ones that the lemmas are about |
| Conditions.GetCondition | pkg/controllers/externalsecret/util.go:35-43 | the first condition of the type, if any |
| Conditions.FilterOutCondition | pkg/controllers/externalsecret/util.go:71-80 | all conditions but those of the type, in order |
| KeyConversion.UnicodeRoundTrip | pkg/utils/utils.go:146-168 | a decoder recovers every string without `_U` and a digit, underscores or not, from its Unicode conversion, with escapes of four to six digits |
| KeyConversion.UnicodeNeverCollides | pkg/utils/utils.go:134-144 | on keys without `_U` and a digit, ConvertKeys with the Unicode strategy never fails |
| KeyConversion.UnderscoreFreeNeverCollides | pkg/utils/utils.go:134-144 | in particular it never fails on underscore-free keys |
| KeyConversion.AmbiguousExactly | pkg/utils/utils.go:146-168 | some other key has the same Unicode conversion if and only if the key has an invalid character or writes out the escape of one |
| KeyConversion.UnderscoresCollide | pkg/utils/utils.go:134-168 | with underscores it can: a space and its escape written out |
| KeyConversion.ConvertKeys | pkg/utils/utils.go:134-144 | in any order, fails exactly when two keys convert to one, and otherwise relabels every entry |
| KeyConversion.ConvertKeysDeterministic | pkg/utils/utils.go:134-144 | the result does not depend on the order the map is walked in |
| KeyConversion.ConvertKeysConserves | pkg/utils/utils.go:134-144 | success keeps the number of entries and how often each value occurs |
| KeyConversion.ConvertKeysFixedPoint | pkg/utils/utils.go:117-168 | after the Default or Unicode strategy the keys are valid and converting again changes nothing |
| KeyConversion.ConvertedIsValid | pkg/utils/utils.go:146-168 | the Default and Unicode strategies always give a valid key |
| KeyConversion.DefaultCharByChar | pkg/utils/utils.go:146-168 | the Default strategy puts one underscore for each invalid character and keeps every other |
| KeyConversion.OtherUnchanged | pkg/utils/utils.go:146-168 | a strategy that is neither changes nothing |
| KeyConversion.Convert | pkg/utils/utils.go:146-168 | the loop over the characters computes the conversion that the lemmas are about |
| KeyConversion.ValidateKeys | pkg/utils/utils.go:117-130 | accepts exactly the maps whose keys are all valid |
| Decoding.AutoInvertsStd | pkg/utils/utils.go:83-115 | Auto decodes the section 4 encoding of every byte string to that string |
| Decoding.AutoInvertsUrl | pkg/utils/utils.go:83-115 | Auto decodes the section 5 encoding of every byte string to that string, though it tries section 4 first |
| Decoding.AutoOrderIrrelevant | pkg/utils/utils.go:103-111 | whatever the section 5 decoder accepts, Auto decodes the same way: trying section 4 first never changes a value |
| Decoding.Decode | pkg/utils/utils.go:83-115 | Auto never returns an error |
| Decoding.DecodesExactly | pkg/utils/utils.go:85-96 | the two decoders give some bytes if and only if the text, without line breaks, is their encoding but for the bits that padding leaves over |
| Decoding.BreaksIgnored | pkg/utils/utils.go:85-96 | a newline or carriage return anywhere makes no difference; no other byte is passed over |
| Decoding.OtherwiseUnchanged | pkg/utils/utils.go:97-114 | what neither alphabet accepts Auto leaves unchanged, as no or an unset strategy does; an unknown strategy is refused |
| Decoding.DecodeMap | pkg/utils/utils.go:71-81 | succeeds exactly when every value decodes, with every value decoded under its key |
| Base64.RoundTrip | pkg/utils/utils.go:85-96 | decoding inverts encoding in either alphabet, padding included |
| Base64.AlphabetsAgree | pkg/utils/utils.go:103-111 | text that both alphabets accept decodes alike in both |
| CertRotation.NeverLapses | pkg/controllers/crds/crds_controller.go:289-351 | if each success ends within ninety days of the start of the one before, with any time and failures between them, then from the first success on, at every instant, the stored server certificate is named for the service, has the stored key, is signed by the stored CA, and both are within their validity |
| CertRotation.RefreshedServes | pkg/controllers/crds/crds_controller.go:309-323 | whatever a refresh leaves stored serves from its end until the lookahead after its start |
| CertRotation.ServesSince | pkg/controllers/crds/crds_controller.go:309-323 | later reconciles, failed or not, keep what a success guaranteed |
| CertRotation.RotatedServesAtOnce | pkg/controllers/crds/crds_controller.go:325-351 | what a refresh writes serves from the moment it was made |
| CertRotation.CheckedServesExactly | pkg/controllers/crds/crds_controller.go:289-307 | certificates that pass the lookahead check serve now if and only if both have begun |
| CertRotation.NotYetBegun | pkg/controllers/crds/crds_controller.go:289-307 | a secret that passes both lookahead checks and does not serve yet |
| CertRotation.BundleCurrentExactly | pkg/controllers/crds/crds_controller.go:168-207 | along every run, the bundle of a CRD is the stored CA if and only if the CA was not replaced since that CRD's own last success; a replaced CA never comes back |
| CertRotation.StaleBundle | pkg/controllers/crds/crds_controller.go:168-207 | from any CRDs of which two have a webhook service, a run in which the CA expires and is replaced by the reconcile of one, leaving the bundle of the other behind |
| CertRotation.Reconciler.RefreshCerts | pkg/controllers/crds/crds_controller.go:325-351 | succeeds exactly when certificates can be made and written and, unless it is renewed, the CA can be read; writes a new pair valid from an hour before for ten years, or a new server certificate under the stored CA; a failure leaves the stored secret alone |
| CertRotation.Reconciler.RefreshCertIfNeeded | pkg/controllers/crds/crds_controller.go:309-323 | success leaves a server certificate named for the service, with the stored key and signed by the stored CA: the stored one, good in ninety days like the CA, or a new pair because the CA was not, or a new server certificate because it was not; fails only if a new one could not be made or written |
| CertRotation.Reconciler.UpdateCRD | pkg/controllers/crds/crds_controller.go:168-207 | succeeds if every call does and the CRD is there with a webhook service, and needs the latter; leaves it with the service's name and namespace and the stored CA as its bundle; no other CRD changes |
| CertRotation.Reconciler.Reconcile | pkg/controllers/crds/crds_controller.go:114-130 | a step of the runs above: success needs the CRD with a webhook service, comes if every call succeeds, and gives this CRD alone the stored CA as its bundle; on failure no CRD changes; readiness of a managed CRD is whether it succeeded |
| GitLab.ClosedForm | pkg/provider/gitlab/gitlab.go:241-291 | for every non-empty key: the last scoped project variable that applies, else the last group variable, else the first wildcard project variable; one applies if its key is asked for and its scope is the environment or either is a wildcard |
| GitLab.GroupClosedForm | pkg/provider/gitlab/gitlab.go:243-262 | the group loops give the last matching variable |
| GitLab.ProjectClosedForm | pkg/provider/gitlab/gitlab.go:265-288 | the project loop overrides by scoped variables and only fills in wildcard ones |
| GitLab.Gitlab.GetAllSecrets | pkg/provider/gitlab/gitlab.go:206-291 | succeeds exactly when the store and the tags do not name two environments and every page can be read; returns the closed form however the pages are cut; the client keeps the environment asked for |
| GitLab.Gitlab.AddGroup | pkg/provider/gitlab/gitlab.go:243-262 | succeeds exactly when every page can be read, and reads each once, in order |
| GitLab.Gitlab.AddProject | pkg/provider/gitlab/gitlab.go:265-288 | succeeds exactly when every page can be read, and reads each once, in order |
| OnePassword.GetAllSecrets | pkg/provider/onepassword/onepassword.go:219-239 | succeeds exactly when all vaults and items can be read, no item repeats a label and the first candidate of each name has a value; then each name has that value, in vault order, then item order, then field or file order |
| OnePassword.CollectSucceedsExactly | pkg/provider/onepassword/onepassword.go:310-390 | collecting succeeds exactly when the first candidate of every name has a value |
| OnePassword.ResultDependsOnSpecOnly | pkg/provider/onepassword/onepassword.go:219-239 | with unique vault numbers any two successes return the same map, whatever the map order |
| OnePassword.VaultOrderUnique | pkg/provider/onepassword/onepassword.go:444-458 | with unique numbers there is one vault order |
| OnePassword.SortVaults | pkg/provider/onepassword/onepassword.go:444-458 | a permutation of the vaults in non-decreasing order of their numbers |
| OnePassword.SortByOrder | pkg/provider/onepassword/onepassword.go:438-442 | sorts the list in place by number, a permutation of what it held |
| OnePassword.HasUniqueVaultNumbers | pkg/provider/onepassword/onepassword.go:460-472 | true exactly when no two vaults have one number |
| OnePassword.AddFields | pkg/provider/onepassword/onepassword.go:310-335 | succeeds exactly when the item can be read and every label is unique, and adds the matching fields whose names are new |
| OnePassword.AddFiles | pkg/provider/onepassword/onepassword.go:369-390 | succeeds exactly when the contents of every new name can be read, and adds the matching files whose names are new |
| OnePassword.AddItems | pkg/provider/onepassword/onepassword.go:392-420 | succeeds exactly when every item does, and adds the candidates of the items in order |
| OnePassword.CountFieldsWithLabel | pkg/provider/onepassword/onepassword.go:422-431 | the number of positions with that label |
| Keeper.ViewsAgreeExactly | pkg/provider/keepersecurity/client.go:372-474 | for a valid record, map view and single lookup agree on a key, in presence and value, if and only if no field of a special key hides it |
| Keeper.OneTimeCodeHidden | pkg/provider/keepersecurity/client.go:398-406 | a valid record whose one-time code the map view has and lookup does not |
| Keeper.Validate | pkg/provider/keepersecurity/client.go:325-349 | accepts exactly the records where no key occurs twice among fields, custom fields and files |
| Keeper.GetItems | pkg/provider/keepersecurity/client.go:372-396 | the property asked for, or all of them, or an error exactly when there is none |
| Keeper.GetProperty | pkg/provider/keepersecurity/client.go:450-465 | the first of field, custom field and file that has a value for the key |

## Left out

- Providers' network, SDK and authentication code, and all generators: foreign calls, here nondeterministic.
- Regular expressions, JSON paths and label selectors: their outcomes are inputs.
- Template engines: not part of this model. ExternalSecrets with a template are outside `SecretSync`.
- Creation policies Merge and None of an ExternalSecret: the first is a server-side apply, the second writes nothing.
- Removal of managed keys under deletion policy Merge: the code never finds a managed key, because it asserts a type the decoder does not produce, so nothing is removed and the model removes nothing.
- The error result and Ready condition after a failed delete of the target Secret: only that its sync mark is gone.
- Store checks before an ExternalSecret is reconciled, including the skip of unmanaged stores, and an unset refresh interval, which the code does not survive.
- What GitLab's GetAllSecrets refuses before it lists: a find with a path, without a name or with a bad expression, other tags, and groups that cannot be resolved.
- The empty key in GitLab's result, under which non-matching wildcard group variables are written; and agreement of GitLab's GetSecret with GetAllSecrets, which rank wildcard project variables differently.
- Compilation errors of a find expression in 1Password, which end the call before any item is read.
- Keys that are not valid UTF-8: strings are sequences of code points.
- How a PushSecret's stores are resolved from names and label selectors, and its conditions, whose update is the one in `Conditions`.
- PushSecret with deletion policy None over runs: it forgets stale entries by design. `PushSecret.Reconcile` does model the policy.
- The ClusterExternalSecret controller: its status is overwritten after a failed removal, so it can forget a namespace it provisioned; the model does not follow it.
- X.509 encoding, key generation and signatures: a certificate is a record, and a chain is a matching key.
- The client cache in `pkg/cache`, a wrapper of a library; webhooks and command wiring, which only register code; metrics, events and logging, which no modelled decision reads.
- Concurrent reconciles of one object, which the controller runtime excludes; reconciles of different objects share no modelled state.
