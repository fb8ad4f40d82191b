# Klutch reconcilers in Dafny

Klutch is a set of Kubernetes reconcilers that offer data services of one cluster to others. What
is hard about them is the state they keep from one pass to the next and the algorithms that turn
observed state into desired state. This project models these parts and proves what they keep over
whole runs.

Run `dafny verify dfyconfig.toml` to verify everything.

| file | models |
|---|---|
| Konnector | the table of shared cluster controllers, as aliased objects on the heap |
| Finalizer | the finalizer protocol of AppClusterBindings against an API server that others change between any two calls |
| Templates, ServiceBindings, AppExports | what an AppClusterBinding desires, and the two reconcilers that bring it about |
| Names, CleanMap | names of generated export requests; removal of empty values |
| MergePatch, Committer | merge patches of half an object with preconditions, and the API server that applies them |
| Exports, ExportRequest, ServiceExport | the two controllers that write exports: creation on request, and the hash-guarded copy of the CRD spec |
| OrderedCompare, Reorderings, ParameterDiff, ServiceInstance | comparison and update of service-instance parameters and how exact the comparison is, inside the observe, create, update machine that a pending operation gates |
| BackupManager, Backup, Restore | the backup and restore machines, whose ids survive in annotations |
| Flatten | flattening of credentials and removal of duplicate root keys |
| Json, JsonText | JSON documents and paths in them; an encoding as text that tells all documents apart, with its decoding |

Code that updates objects in place is modelled by classes and methods, each proved against a
specification function or a transition of the abstract state; code made of expressions by
functions. A Go map is visited in an arbitrary order, an API call may be delivered, get lost or lose
its reply, and caches, brokers and the Backup Manager answer anything.

Where the code does less than one would wish, the exact condition is proved:

- the membership callback of a shared controller fails once the founding binding has left
  (`CallbackIsExact`, `FounderLeaves`);
- a commit arrives as intended if and only if it brings in no new null (`CommitRoundTrip`), and
  likewise a parameter update (`UpdateIsCorrect`);
- sanitising a name is stable after one application only if the cut leaves no dash
  (`SanitizingTwiceIsStable`);
- the two export controllers agree on a name if and only if the group is not empty
  (`NewRequestAsksForExport`), and an export whose template lookup fails is not desired, so it is deleted
  (`EnsureServiceExportRequests`);
- the comparison that ignores the order of array elements misses no reordering of a document exactly if at
  every depth two elements of an array are equal or keep the order of their texts under every reordering
  inside them (`CompleteIffSteady`, with `NestedArraysDiffer` as the example);
- the up-to-date check on raw bytes demands no update that changes nothing exactly if the parameters are
  written as the encoder writes them and every array in them repeats one element (`NilMeansMatch`, with
  `MismatchWithoutUpdate` as the example);
- a request that has succeeded or failed keeps its missing export from coming back until it expires
  (`KeptRequestBlocks`, `StuckRun`); which exports a round of both controllers leaves is told exactly from the
  namespace before it (`Round`);
- the order in which maps are visited shows in flattened credentials exactly where colliding leaves differ
  (`OneOutcome`, `OrderShows`), and a value is published in every order exactly if some members form a core
  that holds it (`WhenPublished`);
- with a context or an originating identity in the spec an instance never counts as up to date
  (`SpecMatchesObservedState`);
- a backup that was deleted remotely is created anew by every pass (`DeletedBackupIsRecreated`);
- a key is the dotted path of its leaf unless the path starts with an empty name (`DottedPathKey`).

## Model

| member | source | states |
|---|---|---|
| Konnector.Reconciler.Reconcile | bind/pkg/konnector/konnector_reconcile.go:55-160 | One pass keeps the table exact: a name is in a context's set iff the table maps the name to that context, no two tabled contexts share a kubeconfig, and a context is cancelled iff its set is empty. In control-plane mode every kubeconfig that was read is mapped; otherwise exactly one that parses, has its current context, names a namespace and builds a client. A missing secret or an empty kubeconfig unmaps the binding, an unreadable one changes nothing. It starts at most one new context, never restarts or revives one, and reports an error only for an unreadable secret or a failed constructor. |
| Konnector.Reconciler.Run | bind/pkg/konnector/konnector_reconcile.go:55-160 | After any sequence of passes the table refines the plain map that those passes describe: every binding is mapped as its own last pass that was not refused the secret demands. No context is started twice, each is started exactly once when no constructor fails, and each is constructed for the namespace of its kubeconfig, in control-plane mode for the root namespace. |
| Konnector.Reconciler.LiveContextsAreTheImage | bind/pkg/konnector/konnector_reconcile.go:70-137 | The uncancelled contexts are exactly the tabled ones, one for each kubeconfig in the plain map. |
| Konnector.Reconciler.CallbackIsExact | bind/pkg/konnector/konnector_reconcile.go:145-149 | The membership callback of a context answers that context's own members for every binding if and only if the founding binding still maps to it. |
| Konnector.LastReadDecides | bind/pkg/konnector/konnector_reconcile.go:55-160 | A binding is mapped by its own last pass that could read the secret, whatever other bindings do. |
| Konnector.LastReadIsLast | bind/pkg/konnector/konnector_reconcile.go:55-160 | That pass is the last of the binding whose secret was not unreadable. |
| Konnector.LoadPlaysNoPart | bind/pkg/konnector/konnector_reconcile.go:103-128 | In control-plane mode reconcilers that differ in how they load a kubeconfig map every binding alike. |
| Konnector.FounderLeaves | bind/pkg/konnector/konnector_reconcile.go:145-149 | When the founder leaves a shared context, the context lives on and its callback finds no table entry. |
| Konnector.FounderLeavesRun | bind/pkg/konnector/konnector_reconcile.go:75-149 | A concrete run reaches that state. |
| Konnector.Reconciler.Detach | bind/pkg/konnector/konnector_reconcile.go:75-82 | Leaving a context keeps the table exact and cancels the context when its last member goes. |
| Konnector.Reconciler.JoinExisting | bind/pkg/konnector/konnector_reconcile.go:90-98 | A binding joins a context exactly when some tabled context has its kubeconfig, in whatever order the table is visited. |
| Konnector.Reconciler.CreateNew | bind/pkg/konnector/konnector_reconcile.go:100-159 | In control-plane mode every kubeconfig gets a new context, for the root namespace; otherwise exactly one that parses, has its current context, names a namespace and builds a client does, for that namespace. Another one is left alone without an error. |
| Finalizer.HasFinalizer | bind/contrib/example-backend/controllers/appclusterbinding/appclusterbinding_controller.go:561-569 | True exactly when the finalizer is in the list. |
| Finalizer.RemoveFinalizer | bind/contrib/example-backend/controllers/appclusterbinding/appclusterbinding_controller.go:571-585 | The list without the finalizer, in order. |
| Finalizer.RemovalIsExact | bind/contrib/example-backend/controllers/appclusterbinding/appclusterbinding_controller.go:523-585 | Removing drops every occurrence, keeps every other finalizer as often as it occurred, and undoes adding. |
| Finalizer.EnsureDeleted | bind/contrib/example-backend/controllers/appclusterbinding/appclusterbinding_reconcile.go:127-198 | Reports success only if every call was delivered, no labelled service binding and no root namespace is left and both cluster roles were seen gone during the call. However the calls fare, unless the worker dies it asks for the namespace and both roles to go, and for every service binding that its list call was answered with. Without interference every service binding is marked afterwards, an active namespace terminates and the roles are gone. |
| Finalizer.Process | bind/contrib/example-backend/controllers/appclusterbinding/appclusterbinding_controller.go:456-521 | A pass, however its calls fare, creates only what was asked for, and its result says what its calls came to: the worker dies exactly if a call crashes it, and only a pass whose calls were all delivered goes without an error. Unless the worker dies it asks for all that the object it read demands: the finalizer for a live object without it, the operations for a live object with it, and the whole deletion for one under deletion. Undisturbed, its result and the state of the server afterwards are exact. |
| Finalizer.Run | bind/contrib/example-backend/controllers/appclusterbinding/appclusterbinding_controller.go:475-559 | Every call of every run is a step of the server: first what users, garbage collection and other controllers do before it, then what it writes, applied or not as its fate says; the worker creates only while the object carries the finalizer and takes the finalizer away only from a clean server. So in every state, within calls too, labelled service bindings or the root namespace exist only while the object carries the finalizer. Every result says what the calls of its pass came to, the worker dies only by a call that crashes it, every pass whose worker lives has asked for all that the object it read demands, and where nothing interferes every pass does exactly what an undisturbed one does. |
| Finalizer.GoneMeansClean | bind/contrib/example-backend/controllers/appclusterbinding/appclusterbinding_controller.go:475-559 | Once the object is gone nothing that was created for it is left, between calls and within them. |
| Finalizer.DeletionEnds | bind/contrib/example-backend/controllers/appclusterbinding/appclusterbinding_controller.go:475-521 | An undisturbed pass over an object under deletion asks for all that is left to go, and once that has gone the next undisturbed pass takes the finalizer away. |
| Finalizer.AskedGo | bind/contrib/example-backend/controllers/appclusterbinding/appclusterbinding_reconcile.go:127-198 | What a deletion has asked for goes, in whatever order, and the object stays until then. |
| Finalizer.CreatedExist | bind/contrib/example-backend/controllers/appclusterbinding/appclusterbinding_reconcile.go:499-560 | Once the namespace is ensured, what an undisturbed pass is to create exists after it, and nothing it found is lost. |
| Finalizer.NothingRefused | bind/contrib/example-backend/controllers/appclusterbinding/appclusterbinding_reconcile.go:554-558 | Once the namespace is ensured, the server refuses no operation of an undisturbed pass, so that it ends without an error. |
| Finalizer.MovedKeeps | bind/contrib/example-backend/controllers/appclusterbinding/appclusterbinding_controller.go:475-559 | Any number of outside events keeps safety, the finalizer of an object and a clean server. |
| Finalizer.EventKeeps | bind/contrib/example-backend/controllers/appclusterbinding/appclusterbinding_controller.go:475-559 | What others do between two calls keeps safety and cannot take the finalizer off the object of a pass. |
| ServiceBindings.EnsureServiceBindings | bind/contrib/example-backend/controllers/appclusterbinding/appclusterbinding_reconcile.go:499-560 | A reference that names a resource but is selected by no template, or cannot be looked up, means an error and no call. Under any failures the gap between labelled and desired names never grows and shrinks by one for each create or delete that takes effect; permission claims are never altered. The pass fails exactly if a call failed; otherwise it ends with exactly the names that the references stand for, those taken by unlabelled objects apart, each with the labels and the secret of the owner, and it writes nothing if and only if that was the case before. |
| ServiceBindings.BuildDesired | bind/contrib/example-backend/controllers/appclusterbinding/appclusterbinding_reconcile.go:500-515 | The desired map has exactly the names that the resolved templates ask for, and exists if and only if no reference is missing from the catalogue. |
| ServiceBindings.Prune | bind/contrib/example-backend/controllers/appclusterbinding/appclusterbinding_reconcile.go:527-551 | The first loop deletes what is not desired, updates what is stale without touching claims, and leaves exactly the missing names. |
| ServiceBindings.CreateMissing | bind/contrib/example-backend/controllers/appclusterbinding/appclusterbinding_reconcile.go:553-557 | The second loop creates the missing names; a taken name is not an error. |
| ServiceBindings.GapShrinks | bind/contrib/example-backend/controllers/appclusterbinding/appclusterbinding_reconcile.go:527-557 | Deleting undesired and creating desired names shrinks the symmetric difference by exactly their number. |
| Templates.ResolvedName | bind/contrib/example-backend/controllers/appclusterbinding/appclusterbinding_reconcile.go:400-415 | A resolved template selects exactly the trimmed reference and has a non-empty export name. |
| Templates.DesiredMember | bind/contrib/example-backend/controllers/appclusterbinding/appclusterbinding_reconcile.go:566-582 | Every desired name comes from an API export that resolves to its template, and is that template's export name. |
| Templates.DesiredHas | bind/contrib/example-backend/controllers/appclusterbinding/appclusterbinding_reconcile.go:566-582 | Every API export that resolves is desired under its name. |
| Templates.FirstMatchWins | bind/contrib/example-backend/exporttemplate/index.go:80-93 | A reference is found exactly if the list can be read and some template selects it, and then the first such template is the answer. |
| Templates.ResolvesExactly | bind/contrib/example-backend/controllers/appclusterbinding/appclusterbinding_reconcile.go:400-415 | A reference is skipped exactly if it names no resource, unresolved exactly if it names one that no template selects or that cannot be looked up, and otherwise resolved to a template that selects it; spaces around its parts do not count. |
| Templates.DesiredIffWanted | bind/contrib/example-backend/controllers/appclusterbinding/appclusterbinding_reconcile.go:566-582 | The desired names are exactly those of the references that name a resource and are found: the resource, with the group after a dot if there is one. |
| Names.TrimIsExact | bind/contrib/example-backend/controllers/appclusterbinding/appclusterbinding_reconcile.go:400-404 | Trimming takes the characters to cut off both ends and nothing else. |
| AppExports.EnsureServiceExportRequests | bind/contrib/example-backend/controllers/appclusterbinding/appclusterbinding_reconcile.go:562-659 | However the calls fare, no wanted export is deleted, only requests for undesired exports are, and a request is made only for a desired export that neither existed nor was asked for. Without a failed call exactly the wanted exports that existed remain and every open export has its request name in use. The pass fails exactly if a reference names a resource that is not found or a call failed. |
| AppExports.PruneExports | bind/contrib/example-backend/controllers/appclusterbinding/appclusterbinding_reconcile.go:591-603 | Exports that are not desired are deleted and the desired ones that exist are marked satisfied, in any order. |
| AppExports.MapRequests | bind/contrib/example-backend/controllers/appclusterbinding/appclusterbinding_reconcile.go:617-629 | An export counts as asked for exactly if the first resource of some listed request names it. |
| AppExports.PruneRequests | bind/contrib/example-backend/controllers/appclusterbinding/appclusterbinding_reconcile.go:631-638 | Only requests for undesired exports are deleted. |
| AppExports.CreateRequests | bind/contrib/example-backend/controllers/appclusterbinding/appclusterbinding_reconcile.go:640-656 | Requests are made for the open exports and nothing else. |
| AppExports.NewRequestAsksForExport | bind/contrib/example-backend/controllers/appclusterbinding/appclusterbinding_reconcile.go:661-690 | A new request asks for the export named after its template, and the request controller uses that same name if and only if the group is not empty. |
| AppExports.ServedExactly | bind/contrib/example-backend/controllers/appclusterbinding/appclusterbinding_reconcile.go:640-656 | Exactly when an open export is asked for after a pass without a failed call: its request name was not in use by a request that stays, whoever made it. |
| AppExports.AllServed | bind/contrib/example-backend/controllers/appclusterbinding/appclusterbinding_reconcile.go:562-659 | With free request names every desired export exists or is asked for. |
| AppExports.Fulfil | bind/contrib/example-backend/controllers/serviceexportrequest/serviceexportrequest_reconcile.go:60-154 | One pass of the request controller over every stored request of the namespace, whoever made it, each from the phase it has reached: without a failed call a missing export comes into being if a Pending request names it with nothing in its way, and only then unless listed resources are ambiguous; expired requests go, other settled ones stay, and a Pending request with nothing in its way succeeds. |
| AppExports.FulfilOne | bind/contrib/example-backend/controllers/serviceexportrequest/serviceexportrequest_reconcile.go:60-153 | A pass over one stored request changes only that request: it goes exactly if it has expired, leaves Pending only for Succeeded with all its exports or for Failed past one minute, and in another phase exports nothing. |
| AppExports.Round | bind/contrib/example-backend/controllers/appclusterbinding/appclusterbinding_reconcile.go:562-659 | A pass of the first controller and one of the request controller over all requests of the namespace, without a failed call. If leftover requests are single, request names apart and listed resources unambiguous, the exports afterwards are, told from the namespace before: the desired ones that existed; those that a Pending request which is not a leftover named with nothing in its way; and those named by what the template of a desired export selects, with nothing in its way, if that export neither existed nor was asked for and its request name was free. With groups and free names, if all requests of the binding are Pending and nothing stands in their way or in that of the selected resources, every desired export exists afterwards. |
| AppExports.PromisedFromStart | bind/contrib/example-backend/controllers/appclusterbinding/appclusterbinding_reconcile.go:631-656 | A request that names an export with nothing in its way is there after the first pass exactly if one stayed or one was made for an open export whose request name was free. |
| AppExports.WillBePromisedGrouped | bind/contrib/example-backend/controllers/appclusterbinding/appclusterbinding_reconcile.go:661-690 | With groups, the request made for an export names this export. |
| AppExports.Converge | bind/contrib/example-backend/controllers/appclusterbinding/appclusterbinding_reconcile.go:562-659 | After a round, exactly when all desired exports exist under the names that are looked for, as a condition on the namespace before it; once they do, the next pass makes no request. |
| AppExports.KeptRequestBlocks | bind/contrib/example-backend/controllers/appclusterbinding/appclusterbinding_reconcile.go:640-648 | An export that is asked for only by requests kept in another phase than Pending is not promised after a pass, so a round does not bring it back. |
| AppExports.StuckRun | bind/contrib/example-backend/controllers/serviceexport/serviceexport_reconcile.go:61-64 | A run in which every call succeeds reaches that state: the request is fulfilled, its CRD goes and takes the export along, the CRD comes back, and the next round leaves the desired export missing. |
| AppExports.HashedNamesApart | bind/contrib/example-backend/controllers/appclusterbinding/appclusterbinding_reconcile.go:692-721 | Request names of one binding are apart whenever the hashes of the template names differ. |
| Names.SanitizeNamePart | bind/contrib/example-backend/controllers/appclusterbinding/appclusterbinding_reconcile.go:723-753 | The loop computes the words of the lower-cased, trimmed input joined by single dashes and cut to 24 characters. |
| Names.SanitizedShape | bind/contrib/example-backend/controllers/appclusterbinding/appclusterbinding_reconcile.go:723-753 | Never a leading or doubled dash, only letters, digits and dashes, at most 24 characters. |
| Names.WordsApart | bind/contrib/example-backend/controllers/appclusterbinding/appclusterbinding_reconcile.go:723-753 | The words of a text are found piece by piece: anything but a lower-case letter or a digit parts two pieces. |
| Names.WordAlone | bind/contrib/example-backend/controllers/appclusterbinding/appclusterbinding_reconcile.go:723-753 | A piece of letters and digits is one word. |
| Names.CaseIsIgnored | bind/contrib/example-backend/controllers/appclusterbinding/appclusterbinding_reconcile.go:723-753 | The case of letters does not matter. |
| Names.SanitizingTwiceIsStable | bind/contrib/example-backend/controllers/appclusterbinding/appclusterbinding_reconcile.go:723-753 | Sanitising is stable after two applications, and after one exactly when the joined words of the input are not longer than 24 characters with a dash as their 24th. |
| Names.SanitizingOnceIsNotStable | bind/contrib/example-backend/controllers/appclusterbinding/appclusterbinding_reconcile.go:723-753 | The inputs on which one application is not stable. |
| Names.RequestNameIsLabel | bind/contrib/example-backend/controllers/appclusterbinding/appclusterbinding_reconcile.go:692-721 | For all inputs and every hash the request name is a label in the sense of section 2.3.1 of RFC 1035, of at most 63 characters, ending in the eight hex digits of the hash; the floor of 1 is never needed. |
| Names.RequestNameShape | bind/contrib/example-backend/controllers/appclusterbinding/appclusterbinding_reconcile.go:692-721 | The name is the prefix, the sanitized binding, the sanitized export and the hash, parted by dashes; fixed words stand in for empty parts, and an export part that would make the two parts longer than 35 characters is cut to fit. |
| Names.RequestNamesDiffer | bind/contrib/example-backend/controllers/appclusterbinding/appclusterbinding_reconcile.go:692-721 | Names for one binding differ whenever the hashes differ. |
| CleanMap.CleanMap | bind/contrib/example-backend/controllers/appclusterbinding/appclusterbinding_reconcile.go:994-1029 | The method, in any visiting order, computes the cleaned object. |
| CleanMap.EmptyValues | bind/contrib/example-backend/controllers/appclusterbinding/appclusterbinding_reconcile.go:1010-1029 | The empty values are null, false, zero and the empty text, array and object. |
| CleanMap.CleaningLeavesNoEmptyValue | bind/contrib/example-backend/controllers/appclusterbinding/appclusterbinding_reconcile.go:994-1029 | No empty value is left on any path through objects. |
| CleanMap.CleaningKeepsExactlyTheLeaves | bind/contrib/example-backend/controllers/appclusterbinding/appclusterbinding_reconcile.go:994-1029 | Exactly the non-empty leaves stay, each at its path with its value; arrays are leaves. |
| CleanMap.CleaningCharacterised | bind/contrib/example-backend/controllers/appclusterbinding/appclusterbinding_reconcile.go:994-1029 | These two promises determine the result. |
| CleanMap.CleaningIsIdempotent | bind/contrib/example-backend/controllers/appclusterbinding/appclusterbinding_reconcile.go:994-1029 | Cleaning twice is cleaning once. |
| MergePatch.MergeIntoNothing | bind/pkg/committer/committer.go:112-123 | Merging a value where there was no object (section 2 of RFC 7396) delivers it whole exactly if it holds no null. |
| MergePatch.DiffRoundTrip | bind/pkg/committer/committer.go:92-115 | The difference of two objects, merged into the first, gives the second if and only if the second brings in no new null. |
| Committer.PatchCarriesPreconditions | bind/pkg/committer/committer.go:92-105 | The patch always carries the uid and resourceVersion that were read, whatever changed. |
| Committer.CommitRoundTrip | bind/pkg/committer/committer.go:76-123 | Applied to the version that was read, a patch is accepted and leaves the other half alone; it makes the changed half equal to the new one if and only if that half brings in no new null. |
| Committer.CommitElsewhereRefused | bind/pkg/committer/committer.go:92-123 | Applied to any other version, or to another object, a patch changes nothing. |
| Committer.Serialisable | bind/pkg/committer/committer.go:56-130 | In any run the versions are what the accepted writes intended, one after the other, and no version is written over twice. |
| Committer.ApiServer.Patch | bind/pkg/committer/committer.go:123-126 | The server accepts a patch exactly if it was computed from the stored version, and then extends the history by it. |
| Committer.Commit | bind/pkg/committer/committer.go:58-129 | Panics exactly if both halves changed, sends nothing exactly if none did, and never writes over another version, whichever call or reply is lost. |
| ExportRequest.EnsureExport | bind/contrib/example-backend/controllers/serviceexportrequest/serviceexportrequest_reconcile.go:65-132 | One listed resource: adds at most the export its CRD and template give, a copy of the converted CRD with its hash, only if there is none, and reports exactly what stands in the way. |
| ExportRequest.CreateExports | bind/contrib/example-backend/controllers/serviceexportrequest/serviceexportrequest_reconcile.go:63-132 | The loop with its early exits: it goes through a front of the list whose every resource ends up with an export, adds only what these resources account for, and stops at an obstacle, a failed call, or a resource that has neither an export nor a template. |
| ExportRequest.Reconcile | bind/contrib/example-backend/controllers/serviceexportrequest/serviceexportrequest_reconcile.go:48-154 | One pass of the phase machine: Succeeded exactly if the loop came to its end, Failed only past one minute, a deletion is asked for exactly in another phase than Pending past ten minutes, and an error leaves phase and conditions as they were. |
| ExportRequest.Process | bind/contrib/example-backend/controllers/serviceexportrequest/serviceexportrequest_controller.go:310-326 | The commit of a request pass never panics: the resources are not changed. It sends nothing exactly if the pass changed nothing, and one that arrives at the version that was read stores phase and conditions as the pass left them. |
| ExportRequest.CommitStores | bind/pkg/committer/committer.go:76-123 | What the server stores after an accepted commit of a request pass is what the pass made of it. |
| ExportRequest.StatusTells | bind/contrib/example-backend/controllers/serviceexportrequest/serviceexportrequest_reconcile.go:60-153 | The stored status tells phases and conditions apart. |
| ExportRequest.Run | bind/contrib/example-backend/controllers/serviceexportrequest/serviceexportrequest_reconcile.go:60-153 | In any run, while CRDs and exports come and go and commits of passes are stored or lost, every step is legal: Succeeded and Failed are final, Succeeded is entered only when every listed resource has an export and Failed only past one minute, deletion is asked for exactly past ten minutes in another phase than Pending, and no export is created while it exists. |
| ExportRequest.PhaseIsFinal | bind/contrib/example-backend/controllers/serviceexportrequest/serviceexportrequest_reconcile.go:60-153 | A phase other than Pending never changes again. |
| ExportRequest.ReachedIsAdded | bind/contrib/example-backend/controllers/serviceexportrequest/serviceexportrequest_reconcile.go:63-132 | A pass without a failed call creates every export that its list reaches with nothing in the way, even seen from before other passes. |
| ExportRequest.AddedIsReached | bind/contrib/example-backend/controllers/serviceexportrequest/serviceexportrequest_reconcile.go:63-132 | And no other export, unless the list goes on at a resource without a template whose name another listed resource shares. |
| ExportRequest.DotFreeIsUnambiguous | bind/contrib/example-backend/controllers/serviceexportrequest/serviceexportrequest_reconcile.go:66 | That cannot be where resource names hold no dot. |
| ServiceExport.EnsureSchema | bind/contrib/example-backend/controllers/serviceexport/serviceexport_reconcile.go:53-94 | A CRD that does not convert puts the export out of sync and changes nothing else; one whose hash is not the recorded one overwrites spec and hash and leaves the mark; any other marks the export in sync and changes nothing else. A missing CRD asks for the deletion of the export. |
| ServiceExport.InSyncExactly | bind/contrib/example-backend/controllers/serviceexport/serviceexport_reconcile.go:67-91 | An export is in sync after a pass over a CRD exactly if the CRD converts and the hashes agreed, or the mark was there and the spec was overwritten. |
| ServiceExport.CreatedInStep | bind/contrib/example-backend/controllers/serviceexportrequest/serviceexportrequest_reconcile.go:109-129 | An export that the request controller creates from a CRD is marked in sync by the first pass over that CRD, which changes nothing else. |
| ServiceExport.Reconcile | bind/contrib/example-backend/controllers/serviceexport/serviceexport_reconcile.go:40-51 | A pass that changed the spec is requeued and deals with the status in the next one. |
| ServiceExport.PassKeepsAgreement | bind/contrib/example-backend/controllers/serviceexport/serviceexport_reconcile.go:53-94 | A pass keeps the agreement of hash annotation and spec, and changes spec and metadata or status, never both. |
| ServiceExport.InSyncMeansEqual | bind/contrib/example-backend/controllers/serviceexport/serviceexport_reconcile.go:80-91 | With a collision-free hash the guard leaves the spec alone exactly if it equals the converted CRD, and an export marked in sync has that spec. |
| ServiceExport.TextIsCollisionFree | bind/pkg/apis/bind/v1alpha1/helpers/serviceexport.go:130 | A hash without collisions exists, so that the assumption can be met. |
| ServiceExport.MarkIsTrustedIffNoCollision | bind/contrib/example-backend/controllers/serviceexport/serviceexport_reconcile.go:80-91 | The mark implies equal specs for every export if and only if no other spec has the hash of the converted CRD. |
| ServiceExport.TwoPassesSync | bind/contrib/example-backend/controllers/serviceexport/serviceexport_reconcile.go:53-94 | Two passes over a convertible CRD reach the state in sync, with equal specs unless old and new spec collide; a third changes nothing. |
| ServiceExport.World.Create | bind/contrib/example-backend/controllers/serviceexportrequest/serviceexportrequest_reconcile.go:109-129 | An export created by the request controller agrees with its hash annotation. |
| ServiceExport.World.Pass | bind/contrib/example-backend/controllers/serviceexport/serviceexport_controller.go:250-276 | A pass over any cached version, whatever CRD it sees and whatever call is lost: no panic, every version ever served agrees with its hash, and only the last version is ever written over. A delivered pass over the last version leaves it in sync only if the CRD converts, and out of sync if it does not. |
| ServiceExport.CommitStores | bind/pkg/committer/committer.go:76-123 | What the server stores after an accepted commit of a pass is what the pass made of the export. |
| ServiceExport.Settle | bind/contrib/example-backend/controllers/serviceexport/serviceexport_reconcile.go:40-94 | Two fresh passes whose commits arrive leave the stored export in sync with an unchanged CRD; a third sends nothing. |
| ServiceExport.Run | bind/contrib/example-backend/controllers/serviceexport/serviceexport_reconcile.go:40-94 | In any run of both controllers and of anybody who deletes exports every event takes a legal step from the served versions before it to those after it; in all of them the hash annotation is the hash of the spec, and no commit panics. |
| OrderedCompare.SortIsOrdered | provider-anynines/pkg/client/serviceinstance/serviceinstance.go:172-176 | The sort orders by encoded text. |
| OrderedCompare.SortedStays | provider-anynines/pkg/client/serviceinstance/serviceinstance.go:172-176 | A sorted array is left as it is. |
| OrderedCompare.OrderedIsUnique | provider-anynines/pkg/client/serviceinstance/serviceinstance.go:172-176 | Sorting by encoded text is unique: it depends on the elements only. |
| OrderedCompare.SameIffNormal | provider-anynines/pkg/client/serviceinstance/serviceinstance.go:171-182 | Two documents compare equal exactly when sorting makes them identical. |
| OrderedCompare.SameIsEquivalence | provider-anynines/pkg/client/serviceinstance/serviceinstance.go:171-182 | The comparison is reflexive, symmetric and transitive. |
| OrderedCompare.SameIsSound | provider-anynines/pkg/client/serviceinstance/serviceinstance.go:169-178 | Documents that compare equal differ only by the order of array elements, at every depth. |
| Reorderings.SameIsComplete | provider-anynines/pkg/client/serviceinstance/serviceinstance.go:169-178 | Where no array lies inside an element of another array, documents compare equal if and only if they differ only in that order. |
| OrderedCompare.NestedArraysDiffer | provider-anynines/pkg/client/serviceinstance/serviceinstance.go:169-178 | With nested arrays a pure reordering can go unnoticed: a concrete pair. |
| Reorderings.CompleteIffSteady | provider-anynines/pkg/client/serviceinstance/serviceinstance.go:169-178 | The comparison misses no reordering of a document if and only if at every depth two elements of an array are equal or keep the order of their texts under every reordering inside them. |
| Reorderings.SteadyMeansSame | provider-anynines/pkg/client/serviceinstance/serviceinstance.go:169-178 | Every reordering of such a document compares equal to it, in whatever order the elements of every array stand. |
| Reorderings.CompleteMeansSteady | provider-anynines/pkg/client/serviceinstance/serviceinstance.go:169-178 | Every other document has a reordering that the comparison misses. |
| Reorderings.AloneIffRigid | provider-anynines/pkg/client/serviceinstance/serviceinstance.go:169-178 | A document compares equal to nothing but itself if and only if every array in it repeats one element. |
| JsonText.MarshalIsInjective | provider-anynines/pkg/client/serviceinstance/serviceinstance.go:172-176 | An encoding as text that tells all documents apart, as the comparison assumes of json.Marshal. |
| JsonText.EncodingsExist | provider-anynines/pkg/client/serviceinstance/serviceinstance.go:112-152 | It has an inverse, so that what is assumed of encoding and decoding can be met together. |
| JsonText.MarshalMisses | provider-anynines/pkg/client/serviceinstance/serviceinstance.go:169-178 | With this encoding the comparison misses a reordering of [[2,1],[1,3]]. |
| ParameterDiff.ParameterUpdateForBroker | provider-anynines/pkg/client/serviceinstance/serviceinstance.go:160-192 | The two loops, in any visiting order, compute the update. |
| ParameterDiff.NilIffAgree | provider-anynines/pkg/client/serviceinstance/serviceinstance.go:157-191 | The update is nil if and only if both sides have the same keys with equal values. |
| ParameterDiff.UpdateIsCorrect | provider-anynines/pkg/client/serviceinstance/serviceinstance.go:154-192 | Applying the update (null removes) gives exactly the expected keys with equal values, and an update that is nil when computed again, if and only if no null is wanted where there was none. |
| ParameterDiff.UpdateIsMinimal | provider-anynines/pkg/client/serviceinstance/serviceinstance.go:154-192 | The update touches no agreeing key, and every update that does the job touches all of its keys. |
| ParameterDiff.ServiceBrokerParamsToKubernetes | provider-anynines/pkg/client/serviceinstance/serviceinstance.go:112-131 | Every value is encoded under its key; nil stays nil. |
| ParameterDiff.KubernetesParamsToServiceBroker | provider-anynines/pkg/client/serviceinstance/serviceinstance.go:133-152 | Every value is decoded under its key, or the whole conversion fails. |
| ParameterDiff.ParamsRoundTrip | provider-anynines/pkg/client/serviceinstance/serviceinstance.go:112-152 | The conversions are inverse where decoding is inverse to encoding. |
| ParameterDiff.LateInitialize | provider-anynines/pkg/client/serviceinstance/serviceinstance.go:38-72 | A field that is set stays, an unset one takes the given value unless that is empty, and parameters that hold something stay; acceptsIncomplete is always set. |
| ParameterDiff.SpecMatchesObservedState | provider-anynines/pkg/client/serviceinstance/serviceinstance.go:91-110 | The check comes to equality of raw parameters, with nil and empty alike, and of the identifiers, with the empty string for an unset one; a spec that sets a context or an originating identity never matches. |
| ParameterDiff.MatchMeansNoUpdate | provider-anynines/pkg/client/serviceinstance/serviceinstance.go:91-110 | Parameters that match as bytes need no update. |
| ParameterDiff.NilMeansMatch | provider-anynines/pkg/client/serviceinstance/serviceinstance.go:91-192 | The converse holds, whatever was observed, if and only if the spec is settled but for its parameters and these are written as the encoder writes them and every array in them repeats one element. |
| ParameterDiff.NilMeansEqualBytes | provider-anynines/pkg/client/serviceinstance/serviceinstance.go:91-192 | The same for the raw parameters alone. |
| ParameterDiff.MismatchWithoutUpdate | provider-anynines/pkg/client/serviceinstance/serviceinstance.go:91-110 | A concrete pair that does not match but needs no update. |
| ServiceInstance.GenAndCheckUID | provider-anynines/internal/controller/serviceinstance/serviceinstance.go:186-199 | A generated id is one the broker does not know, after only known ones; any error gives up. |
| ServiceInstance.GetInstanceAndUpdateObservation | provider-anynines/internal/controller/serviceinstance/serviceinstance.go:444-483 | The status takes over what the broker reports; an unknown or deleted instance counts as absent. |
| ServiceInstance.ProcessPendingOperation | provider-anynines/internal/controller/serviceinstance/serviceinstance.go:485-515 | The key is cleared exactly when the operation succeeded or failed; a failed or unreadable one is an error. |
| ServiceInstance.SetConditions | provider-anynines/internal/controller/serviceinstance/serviceinstance.go:214-236 | Unavailable while an operation is pending; otherwise each reported state has its condition, and an instance is available only when it is provisioned or available. |
| ServiceInstance.IsResourceUpToDate | provider-anynines/internal/controller/serviceinstance/serviceinstance.go:517-537 | While an operation is pending the instance counts as up to date; otherwise parameters, identifiers and plan must match, and it never is with a context or an originating identity in the spec. |
| ServiceInstance.Observe | provider-anynines/internal/controller/serviceinstance/serviceinstance.go:134-172 | Exactly when an instance is absent; it is reported out of date only with nothing pending; an up-to-date verdict with nothing pending implies that the parameter update is nil, the plans agree, the identifiers are those the broker reports, and the spec sets neither context nor originating identity. |
| ServiceInstance.Create | provider-anynines/internal/controller/serviceinstance/serviceinstance.go:239-280 | The request carries the plan and the decoded parameters and is sent exactly if the plan resolves, the parameters decode and the pointers are set; the ending and the stored key follow from the reply. |
| ServiceInstance.Update | provider-anynines/internal/controller/serviceinstance/serviceinstance.go:318-356 | The request carries the desired plan and the update from observed to expected parameters, which makes the broker agree with the spec if and only if no null is wanted anew; the ending and the stored key follow from the reply. |
| ServiceInstance.Delete | provider-anynines/internal/controller/serviceinstance/serviceinstance.go:358-381 | The request names the plan and service that the broker reported; the ending and the stored key follow from the reply, and a reply that the instance is not there ends in a nil dereference. |
| ServiceInstance.EndedBefore | provider-anynines/internal/controller/serviceinstance/serviceinstance.go:485-537 | In a safe log an update request that follows the storing of a key, with no key stored in between, follows the end of that very operation. |
| ServiceInstance.Reconciler.Pass | provider-anynines/internal/controller/serviceinstance/serviceinstance.go:134-172 | A pass asks the broker for a new instance exactly if it is absent and not being deleted, for an update exactly if it is present, out of date and not being deleted, and for a deletion exactly if it is present under deletion, each only if everything that goes into the request is known. The requests, the key that the reply brings and the release are exact, and the log stays safe even if the pass crashes. |
| ServiceInstance.PassAsks | provider-anynines/internal/controller/serviceinstance/serviceinstance.go:239-381 | Exactly which requests a pass sends, with their contents, and that the key of a reply is stored exactly if a request was sent. |
| ServiceInstance.Run | provider-anynines/internal/controller/serviceinstance/serviceinstance.go:134-537 | Any run goes step by step as the pass prescribes, with every request to the broker logged, and no update request is sent from when a pending key is stored until an Observe saw that operation succeed or fail, or until Create or Delete stored another key. |
| ServiceInstance.RunAsks | provider-anynines/internal/controller/serviceinstance/serviceinstance.go:134-381 | Of each pass of a run, exactly what it sends. |
| Restore.InitializeRestoreStatus | provider-anynines/internal/controller/restore/restore.go:333-361 | Both ids are set together from a backup that has both, and setting them ends the pass. |
| Restore.CheckForDeletion | provider-anynines/internal/controller/restore/restore.go:227-240 | Under deletion a queued or running restore is an error. |
| Restore.Observe | provider-anynines/internal/controller/restore/restore.go:165-225 | Ids that are set stay; exactly when a restore is present, absent or asked for; under deletion it is absent only if nothing was asked or the answer was neither queued nor running. |
| Restore.Create | provider-anynines/internal/controller/restore/restore.go:263-294 | The request carries the stored ids, and the id of the reply goes to the annotation. |
| Restore.Reconciler.Pass | provider-anynines/internal/controller/restore/restore.go:165-325 | A request is sent exactly for an absent restore that is not being deleted. The finalizer goes exactly for an absent one under deletion, and never while the restore just observed is queued or running. |
| Restore.StepFacts | provider-anynines/internal/controller/restore/restore.go:263-325 | The one request names the stored ids, the id of the reply goes to the annotation, and nothing else does. |
| Restore.Run | provider-anynines/internal/controller/restore/restore.go:165-348 | Any run goes step by step as the pass prescribes; only the last request can have had its id stored, no request is sent with an unset id, and ids that are set stay. |
| Backup.InitializeBackupStatus | provider-anynines/internal/controller/backup/backup.go:192-204 | A set instance id stays; setting it ends the pass. |
| Backup.Observe | provider-anynines/internal/controller/backup/backup.go:206-267 | Exactly when a backup is present, absent or asked for: it is absent if its annotation is unset or the Backup Manager reports it deleted. |
| Backup.Create | provider-anynines/internal/controller/backup/backup.go:295-327 | The id of the reply goes to the annotation. |
| Backup.Delete | provider-anynines/internal/controller/backup/backup.go:344-371 | The deletion is requested for the id in the status, else for the one in the annotation, else not at all. |
| Backup.Reconciler.Pass | provider-anynines/internal/controller/backup/backup.go:206-371 | A request is sent exactly for an absent backup that is not being deleted, and a deletion is requested exactly for a present backup under deletion that has an id. |
| Backup.StepFacts | provider-anynines/internal/controller/backup/backup.go:206-327 | Exactly which request goes out, what reaches the annotation, and when the finalizer goes. |
| Backup.Run | provider-anynines/internal/controller/backup/backup.go:193-327 | Any run goes step by step as the pass prescribes; the instance id stays once set, no request is sent with an unset one, and every request after a stored one follows an Observe that saw the backup deleted. |
| Backup.DeletedBackupIsRecreated | provider-anynines/internal/controller/backup/backup.go:221-327 | At most one request per backup is not kept: while the remote backup reports deleted, every pass sends another request. |
| Flatten.FlattenMap | provider-anynines/pkg/utils/flattenmap.go:26-48 | The result is what some order of visits comes to; its keys are exactly those of the leaves, each with the value of a leaf that has this key, and hold only allowed characters. |
| Flatten.ValidKey | provider-anynines/pkg/utils/flattenmap.go:63-67 | Every character that is not allowed becomes an underscore, the others stay. |
| Flatten.DottedPathKey | provider-anynines/pkg/utils/flattenmap.go:30-35 | A key is the sanitised dotted path of its leaf if and only if the path is a single name or does not start with an empty one. |
| Flatten.OneOutcome | provider-anynines/pkg/utils/flattenmap.go:26-48 | All orders of visits come to one result if and only if leaves that end up under the same key look the same. |
| Flatten.LeafCanWin | provider-anynines/pkg/utils/flattenmap.go:30-45 | Every leaf is visited last among those with its key in some order. |
| Flatten.ValueStandsIffUncontested | provider-anynines/pkg/utils/flattenmap.go:30-45 | The value of a single leaf stands under its key in every order if and only if no other leaf with this key looks different. |
| Flatten.OrderShows | provider-anynines/pkg/utils/flattenmap.go:30-45 | A concrete input, {"a.b": x, "a": {"b": y}}, with two outcomes. |
| Flatten.SplitParts | provider-anynines/pkg/utils/flattenmap.go:53-55 | The last part of a key is what follows its last dot. |
| Flatten.Credentials.ReplaceRootKeyWithNestedKey | provider-anynines/pkg/utils/flattenmap.go:50-61 | The loop that deletes from the map it ranges over has one result for every visiting order. |
| Flatten.DeletedValuesSurvive | provider-anynines/pkg/utils/flattenmap.go:50-61 | Only keys without a dot go, and the value of each survives under a dotted key that ends in it. |
| Flatten.DeduplicationIsIdempotent | provider-anynines/pkg/utils/flattenmap.go:50-61 | Doing it twice is doing it once. |
| Flatten.Publish | provider-anynines/pkg/utils/flattenmap.go:26-61 | The published credentials are an outcome of flattening without its duplicates; the value of every leaf that no other leaf with its key contradicts is found under its key or under a dotted key that ends in it. |
| Flatten.DeduplicationKeepsPublished | provider-anynines/pkg/utils/flattenmap.go:50-61 | Removing duplicates loses no value: what is found under a key, or under a dotted key that ends in it, is found so before and after. |
| Flatten.WhenPublished | provider-anynines/pkg/utils/flattenmap.go:26-61 | When the value of a single leaf is published in every order of visits: exactly if some members form a core, each of which certainly holds the value under the key or a dotted key ending in it that no member outside of the core can overwrite, and so on inside them. In particular if some such key can hold only this value, and, if no other leaf's key ends in the key, exactly if no other leaf with it looks different. |
| Flatten.AlwaysIffCertain | provider-anynines/pkg/utils/flattenmap.go:26-61 | A value shows in every outcome of flattening if and only if there is such a core. |
| Flatten.WinnersDepend | provider-anynines/pkg/utils/flattenmap.go:26-61 | A concrete input on which either of two keys can hold another value, but not both: the value is published in every order although no single key is sure to hold it. |

## Left out

- Konnector.Reconciler.Reconcile: the lock is taken as given, so a pass is one step; the secret is read before the lock and enters as an input.
- Finalizer.Run: one worker with fresh reads of one AppClusterBinding, whose root namespace no other binding shares; the creating part of a pass is any sequence of its calls, since safety does not depend on which.
- Finalizer.Process: the status update at its end and the cluster roles that a pass creates are not part of the model; roles may appear at any time.
- ServiceBindings.EnsureServiceBindings: nobody else writes during a pass, and a deletion takes effect at once.
- AppExports.Round: the exact condition is for namespaces where no two leftover requests ask for the same undesired export, of which a pass deletes only the one listed last; deletions take effect at once, and lists are fresh; a stored request keeps its phase and age but not its conditions, which no decision reads.
- AppExports.Fulfil: that only promised exports come into being is stated for unambiguous lists; a list that goes on at a resource without a template whose CRD name another listed resource shares depends on the order of the passes. Lists of at most one resource, as the AppClusterBinding controller makes them, are unambiguous.
- Committer.CommitRoundTrip: semantic equality of Kubernetes objects is equality of their JSON, and the server keeps exactly what a patch says (no defaulting or pruning).
- ServiceExport.Run: a cache does not serve versions of an export that was deleted and created again, and converted CRD specs hold no null.
- ExportRequest.Run: exports and CRDs are read fresh; a stale read can make a create fail, which ends the pass with an error.
- Names.RequestNamesDiffer: FNV-1a stays an arbitrary 32-bit function.
- Reorderings.CompleteIffSteady: json.Marshal is an arbitrary encoding that tells different documents apart; numbers are finite decimals without a negative zero.
- ServiceInstance.Run: the status is stored at the end of every pass that does not crash; a reply whose key is lost otherwise would escape the model.
- ServiceInstance.Observe: the catalogue lookup of service and plan ids is an input.
- Restore.Run: a request whose reply is lost or carries no id may be sent again, as the source says itself; the theorem is about requests whose id was stored.
- Informers, work queues, leader election, back-off and logging: any scheduling of passes stands for them.
- HTTP clients, the broker and the Backup Manager: any reply stands for them.
- Kubeconfig parsing, CRD conversion and spec hashing: fixed functions.
- RBAC objects, deployments, secret mirroring, URL extraction and heartbeat messages: field copying with single-branch claims.
- Service-binding credentials controller, web server, OIDC, CLI and generated code: no state that spans passes, or boilerplate.
