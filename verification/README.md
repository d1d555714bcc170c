# figpack: a verified model of its data-shaping and validation core

figpack builds interactive scientific figures. Python code writes a figure's data as a zarr store and uploads the files. A browser viewer reads the figure back and draws it, and a slides extension turns markdown into presentations. Cloud APIs store the figures, pin and renew them, and share documents that embed them.

This project models the logic under the UI and network layers in Dafny and proves properties of it. There is one module per source file, and the modules share a `Common` module of helpers: options, string split/join/trim, decimal rendering and sums.

- **Downsampling pyramids and chunk shapes.**
  - `LinearDecode` builds the max-pooling pyramid at factors 4, 16, 64, …, with NaN modelled as `Missing`, and sizes the chunks.
  - `MultiChannelIntervals` checks its array and sizes its chunk.
  - `SeriesLoading` chooses a pyramid level for the timeseries graph and de-interleaves channels.
  - `RasterPlotData` scans reference times and re-bins spike counts to at most 500 bins.
  - `SpikeAmplitudes` discovers the subsampled copies and chooses one.
- **Upload bundle.**
  - `UploadBundle` classifies files, recognises zarr chunks and picks content types on the client.
  - `UploadHandler` keeps the server's path whitelist and runs the per-file checks.
  - `ZarrConsolidate` packs chunk files first-fit into consolidated files and records byte-offset references.
  - `BucketUri` parses storage-bucket URIs and batches bulk deletions.
- **Edit overlays and layout state.**
  - `EditableZarrGroup` holds the copy-on-write edit reducer and the group/dataset overlays.
  - `MountainLayout` and `VerticalLayout` hold the tab and scroll state of the viewer's layouts.
  - `SlideView` applies live title and position edits to a slide.
- **Slides markdown.**
  - `SlideParser` cuts a presentation into slides and sections.
  - `SlideEditor` holds the live-edit server's title and section rewrites.
  - `MarkdownFragments` handles incremental fragments and the presenter's view.
- **Small parsers, validators and formatters.**
  - `WheelIndex`: wheel file names and their order.
  - `FigureOps` and `FigureRenewal`: the pin, unpin and renew rules.
  - `DocumentAccess`: document access and updates.
  - `Annotations`: annotation-map equality and the annotations URL.
  - `IframeUpload`: trusted origins and manage URLs.
  - `TimeFormat`: the toolbar clock.
  - `TrackDrawing`: bin-index arithmetic and colour schemes.
  - `TrackClient`: frame offsets and the bounded frame cache.
  - `AdminAuth`: constant-time key comparison and user validation.
  - `ApiKeys`: the API-key outcome the handlers share.

I/O is not modelled. The file system, zarr reads, the database, S3, fetches, the clock, YAML parsing and regular-expression matches are parameters of the operations that use them.

## Model

| member | source | states |
|---|---|---|
| AdminAuth.XorZero | figpack-api-old/lib/adminAuth.ts:14 | the exclusive-or of two character codes is zero exactly when the codes are equal |
| AdminAuth.OrZero | figpack-api-old/lib/adminAuth.ts:14 | the accumulated or stays zero exactly when both operands are zero |
| AdminAuth.SecureCompare | figpack-api-old/lib/adminAuth.ts:7-18 | answers true exactly when the two keys are equal; keys of different lengths are refused before any character is compared, keys of equal length have every position compared |
| AdminAuth.ApiKeyResult | figpack-api-old/lib/adminAuth.ts:30-61 | valid exactly when some user holds the key (a failed lookup counts as none); a valid result carries that user and that user's administrator flag and is never a bootstrap result |
| AdminAuth.ValidateBootstrapKey | figpack-api-old/lib/adminAuth.ts:66-85 | valid (and administrator) exactly when BOOTSTRAP_KEY is set, not empty, and equal to the key |
| AdminAuth.AuthenticateAdmin | figpack-api-old/lib/adminAuth.ts:90-102 | an administrator's key answers with that administrator; every other key is tried as the bootstrap key; a valid answer is always an administrator |
| AdminAuth.AuthenticateUser | figpack-api-old/lib/adminAuth.ts:107-119 | any user's key answers with that user; a key nobody holds is tried as the bootstrap key |
| AdminAuth.AdminAccess | figpack-api-old/lib/adminAuth.ts:90-102 | administrator access is granted exactly to an administrator's key or to the configured non-empty bootstrap key, and a bootstrap answer never stands for an administrator's own key |
| AdminAuth.ValidateUserData | figpack-api-old/lib/adminAuth.ts:306-319 | the intended `validateUserData`; specified by UserRecordValid |
| AdminAuth.ValidateAdminData | figpack-api-old/lib/adminAuth.ts:324-332 | the intended `validateAdminData`; specified by AdminDataUsers |
| AdminAuth.UserRecordValid | figpack-api-old/lib/adminAuth.ts:306-319 | a record with the six user fields of the right types passes exactly when its email contains '@', its trimmed name is not empty and its API key is not empty |
| AdminAuth.AdminDataUsers | figpack-api-old/lib/adminAuth.ts:324-332 | data with a users list, a version and a modification time is valid exactly when every user in the list is valid |
| AdminAuth.ValidateUserDataAsWritten | figpack-api-old/lib/adminAuth.ts:306-319 | the validator as written throws exactly for null and otherwise answers the intended validity |
| AdminAuth.EveryUserAsWritten | figpack-api-old/lib/adminAuth.ts:330 | `every` over the user list answers true exactly when every user is valid (a null user throws rather than answering) |
| AdminAuth.ValidateAdminDataAsWritten | figpack-api-old/lib/adminAuth.ts:324-332 | answers true exactly when the data is valid |
| AdminAuth.NullThrows | figpack-api-old/lib/adminAuth.ts:306-332 | null, or a user list holding null, makes the validators throw a TypeError where the intended answer is false |
| Annotations.AnnotationItemsAreEqual | figpack-figure/src/hooks/useSavedFigureAnnotations.ts:148-165 | the comparison answers exactly the condition that both item sets are empty, or both hold the same number of keys with every key of the first mapped to the same value in the second |
| Annotations.SubsetSameSize | figpack-figure/src/hooks/useSavedFigureAnnotations.ts:158-163 | one key set inside another of the same size is the same set, which is why comparing sizes and then one side's keys suffices |
| Annotations.ItemsEqualSpec | figpack-figure/src/hooks/useSavedFigureAnnotations.ts:148-165 | two item sets compare equal exactly when they are the same map, with no items and a missing map standing for the same thing |
| Annotations.ItemsEqualEquivalence | figpack-figure/src/hooks/useSavedFigureAnnotations.ts:148-165 | the comparison is reflexive, symmetric and transitive |
| Annotations.StripSlash | figpack-figure/src/hooks/useSavedFigureAnnotations.ts:24-28 | one trailing "/" is removed and nothing else |
| Annotations.SlashKeepsIndexHtml | figpack-figure/src/hooks/useSavedFigureAnnotations.ts:21-23 | a URL ending in "/" is not shortened by the "/index.html" rule |
| Annotations.StripIndexHtml | figpack-figure/src/hooks/useSavedFigureAnnotations.ts:21-23 | a URL ending in "/index.html" loses "index.html" and keeps its "/" |
| Annotations.AnnotationsUrl | figpack-figure/src/hooks/useSavedFigureAnnotations.ts:21-30 | the annotations URL; specified by StripSlash, StripIndexHtml and AnnotationsUrlSpec |
| Annotations.AnnotationsUrlSpec | figpack-figure/src/hooks/useSavedFigureAnnotations.ts:21-30 | a figure's directory, the same with a trailing "/", and the same with "/index.html" all load and save annotations at the directory followed by "/annotations.json" |
| BucketUri.QueryMap | figpack-api-cf/src/s3Utils.ts:29-37 | every key and every value stored in the query record is non-empty |
| BucketUri.QueryIndex | figpack-api-cf/src/s3Utils.ts:23-24 | the query starts at the first "?", or at the end of the URI when there is none |
| BucketUri.FillQuery | figpack-api-cf/src/s3Utils.ts:29-37 | the loop leaves the record empty for an empty query string and otherwise stores the pairs of the "&"-separated parts in order |
| BucketUri.ParseBucketUri | figpack-api-cf/src/s3Utils.ts:22-52 | returns the service, region and bucket name of the URI as the parse defines them |
| BucketUri.QueryPairOf | figpack-api-cf/src/s3Utils.ts:32-35 | a part "key=value" whose key and value are non-empty and hold no "=" yields that pair |
| BucketUri.QueryPairNeedsValue | figpack-api-cf/src/s3Utils.ts:32-35 | a part without "=" has no value and is skipped |
| BucketUri.QueryMapKeys | figpack-api-cf/src/s3Utils.ts:29-37 | a key is in the record exactly when some part sets it |
| BucketUri.QueryMapLastWins | figpack-api-cf/src/s3Utils.ts:29-37 | for each key the record holds the value of the last part that sets it |
| BucketUri.NoQuery | figpack-api-cf/src/s3Utils.ts:22-39 | a URI without "?" has an empty query record and an empty region, and its base is the whole URI |
| BucketUri.SplitFirst | figpack-api-cf/src/s3Utils.ts:57 | the first piece of a split is everything before the first separator |
| BucketUri.BucketNameFromUri | figpack-api-cf/src/s3Utils.ts:55-58 | `bucketNameFromUri`; specified by BucketNameAgrees |
| BucketUri.BucketNameAgrees | figpack-api-cf/src/s3Utils.ts:22-58 | `bucketNameFromUri` gives the same bucket name as `parseBucketUri` for every URI, the empty one included |
| BucketUri.BasePieces | figpack-api-cf/src/s3Utils.ts:40-49 | "scheme://bucket" splits at "/" into the scheme with its colon, an empty piece and the bucket, and the scheme splits at ":" into its name and an empty piece |
| BucketUri.SchemeSlashPieces | figpack-api-cf/src/s3Utils.ts:49 | "scheme//bucket" splits at "/" into three pieces with the bucket third |
| BucketUri.SinglePartQuery | figpack-api-cf/src/s3Utils.ts:29-37 | a query without "&" stores exactly its one pair |
| BucketUri.RegionQuery | figpack-api-cf/src/s3Utils.ts:29-39 | the query "region=r" gives the record holding region r alone |
| BucketUri.ParseComposed | figpack-api-cf/src/s3Utils.ts:22-52 | a URI composed from a scheme, a bucket and an optional region parses back into the service the scheme names (wasabi, google, aws, r2, or the scheme itself), that region and that bucket |
| BucketUri.ParsedFromParts | figpack-api-cf/src/s3Utils.ts:39-51 | the parse result is determined by the URI's base and query record alone |
| BucketUri.Chunks | figpack-api-cf/src/s3Utils.ts:217-220 | the delete batches; specified by ChunksSpec and ChunksCount |
| BucketUri.ChunksSpec | figpack-api-cf/src/s3Utils.ts:217-220 | the delete batches concatenate to the keys in order; each holds between 1 and 1000 keys and all but the last hold exactly 1000 |
| BucketUri.ChunksCount | figpack-api-cf/src/s3Utils.ts:217-220 | the number of batches is the number of keys divided by the batch size, rounded up |
| BucketUri.DeleteObjects | figpack-api-cf/src/s3Utils.ts:207-231 | requests go to the bucket named by the bucket URI and carry the keys in consecutive batches of at most 1000, none for no keys |
| DocumentAccess.ExtractFigureRefs | figpack-api-cf/src/handlers/documentsHandler.ts:16-29 | the references extracted are the captured image URLs that contain "/figures/", each kept once at its first occurrence |
| DocumentAccess.FigureUrlsMembers | figpack-api-cf/src/handlers/documentsHandler.ts:21-26 | a URL is kept exactly when it was captured and contains "/figures/" |
| DocumentAccess.DistinctSpec | figpack-api-cf/src/handlers/documentsHandler.ts:28 | removing duplicates leaves no duplicates and the same members |
| DocumentAccess.FigureRefsSpec | figpack-api-cf/src/handlers/documentsHandler.ts:16-29 | a document's figure references hold no duplicates and are exactly the captured URLs containing "/figures/" |
| DocumentAccess.HasViewAccess | figpack-api-cf/src/handlers/documentsHandler.ts:176-180 | the view test; specified by AccessSpec, ListsOnlyInUsersMode and EditorWithoutView |
| DocumentAccess.HasEditAccess | figpack-api-cf/src/handlers/documentsHandler.ts:186-189 | the edit test; specified by AccessSpec, ListsOnlyInUsersMode and EditorWithoutView |
| DocumentAccess.AccessSpec | figpack-api-cf/src/handlers/documentsHandler.ts:176-189 | a signed-in owner may view and edit; anyone, signed in or not, may view a public document; a caller who is not signed in (no email, or an empty one) may not edit and may view exactly the public documents |
| DocumentAccess.ListsOnlyInUsersMode | figpack-api-cf/src/handlers/documentsHandler.ts:176-189 | the viewer list matters only in "users" view mode and the editor list only in "users" edit mode |
| DocumentAccess.EditorWithoutView | figpack-api-cf/src/handlers/documentsHandler.ts:176-189 | a caller can edit but not view a document exactly when signed in, not the owner, on the editor list in "users" edit mode, the document is not public, and the caller is not a viewer in "users" view mode |
| DocumentAccess.RequestUser | figpack-api-cf/src/handlers/documentsHandler.ts:165-174 | a request acts as a user only when it carries an API key that authenticates to a user |
| DocumentAccess.GetDocument | figpack-api-cf/src/handlers/documentsHandler.ts:141-203 | `handleGetDocument`; specified by GetDocumentSpec |
| DocumentAccess.GetDocumentSpec | figpack-api-cf/src/handlers/documentsHandler.ts:141-203 | a document is returned exactly when the id is given, the document exists and the caller may view it; the reply carries the document and whether the caller may edit it |
| DocumentAccess.VisibleDocuments | figpack-api-cf/src/handlers/documentsHandler.ts:486-495 | the documents returned for a figure are the referencing documents the caller may view: every one returned is viewable and every viewable one is returned |
| DocumentAccess.VisibleDocumentsSingle | figpack-api-cf/src/handlers/documentsHandler.ts:486-495 | one row is kept exactly when the caller may view it |
| DocumentAccess.VisibleDocumentsAppend | figpack-api-cf/src/handlers/documentsHandler.ts:473-495 | the filter keeps the rows in the query's order (latest update first) and each row as often as it occurs: filtering a concatenation is the concatenation of the filtered parts |
| DocumentAccess.CreateDocument | figpack-api-cf/src/handlers/documentsHandler.ts:49-139 | `handleCreateDocument`; specified by CreateSpec |
| DocumentAccess.CreateSpec | figpack-api-cf/src/handlers/documentsHandler.ts:49-139 | a document is created exactly for a request with an API key, a non-blank title of at most 200 trimmed characters, content of at most 1,000,000 characters and an authenticated caller; the caller owns it, its title is trimmed, its references are extracted from its content, and only the owner may view or edit it |
| DocumentAccess.BuildUpdate | figpack-api-cf/src/handlers/documentsHandler.ts:304-359 | the update builder checks the title and content, collects the columns to write (access settings only for the owner) and refuses an update with nothing to write |
| DocumentAccess.UpdateDocument | figpack-api-cf/src/handlers/documentsHandler.ts:260-389 | `handleUpdateDocument`; specified by UpdateSpec and UpdateKeepsOwner |
| DocumentAccess.UpdateSpec | figpack-api-cf/src/handlers/documentsHandler.ts:260-389 | an update is written exactly when the caller may edit an existing document, the new title and content are valid and something is to be written; it keeps the owner, id and creation time, stamps the update time, and leaves access settings unchanged when the caller is not the owner |
| DocumentAccess.UpdateKeepsOwner | figpack-api-cf/src/handlers/documentsHandler.ts:260-389 | after any update the owner can still view and edit the document |
| DocumentAccess.DeleteDocument | figpack-api-cf/src/handlers/documentsHandler.ts:391-449 | a delete succeeds exactly when the id and API key are given, the caller is authenticated, the document exists and the caller owns it |
| EditableZarrGroup.Reduce | figpack-figure/src/hooks/EditableZarrGroup.ts:56-144 | each action changes exactly its fields: setAttrs overrides the path's attributes (and a created group's own); removeDataset un-creates and marks removed; removeGroup un-creates a created group or marks a base group removed and drops its attribute override; createGroup on a removed path throws, otherwise records the group and its attributes; createDataset un-removes and records the dataset |
| EditableZarrGroup.RemoveThenCreateDataset | figpack-figure/src/hooks/EditableZarrGroup.ts:73-84 | a removed dataset is listed as removed and not created, and creating it again un-removes it with the new data |
| EditableZarrGroup.RemovedBaseGroupCannotBeCreated | figpack-figure/src/hooks/EditableZarrGroup.ts:86-113 | removing a group not created in this session makes creating it again an error |
| EditableZarrGroup.CreateThenRemoveGroup | figpack-figure/src/hooks/EditableZarrGroup.ts:86-127 | creating a fresh group and removing it again leaves the edits as before, apart from the path's attribute override being gone |
| EditableZarrGroup.IsDirectChild | figpack-figure/src/hooks/EditableZarrGroup.ts:155-170 | `isDirectChild`; specified by DirectChildRoundTrip and ChildPathRoundTrip |
| EditableZarrGroup.GetChildName | figpack-figure/src/hooks/EditableZarrGroup.ts:172-178 | `getChildName`; specified by DirectChildRoundTrip, ChildPathRoundTrip and ChildNameDetermines |
| EditableZarrGroup.DirectChildRoundTrip | figpack-figure/src/hooks/EditableZarrGroup.ts:155-178 | a direct child's name is a non-empty segment without "/", and joining it to the parent gives the child's path back |
| EditableZarrGroup.ChildPathRoundTrip | figpack-figure/src/hooks/EditableZarrGroup.ts:155-178 | a non-empty name without "/" joined to a parent is a direct child, and its name is recovered |
| EditableZarrGroup.ChildNameDetermines | figpack-figure/src/hooks/EditableZarrGroup.ts:155-178 | two direct children of one parent with the same name are the same path |
| EditableZarrGroup.KeptIndices | figpack-figure/src/hooks/EditableZarrGroup.ts:197-199 | the positions `filter` keeps: in increasing order, each the position of a path not removed, and every such position listed |
| EditableZarrGroup.BaseSubgroupsView | figpack-figure/src/hooks/EditableZarrGroup.ts:197-206 | no removed subgroup is listed, and every base subgroup that is not removed is listed with its attribute override applied; the order is stated by BaseSubgroupsOrder |
| EditableZarrGroup.BaseSubgroupsOrder | figpack-figure/src/hooks/EditableZarrGroup.ts:197-206 | the view lists exactly the kept base subgroups in base order: as many entries as KeptIndices gives, the k-th being the override of the k-th kept base subgroup |
| EditableZarrGroup.CreatedSubgroups | figpack-figure/src/hooks/EditableZarrGroup.ts:208-224 | the created subgroups listed are exactly the created, non-removed direct children of the group, with their names and attributes |
| EditableZarrGroup.FindByName | figpack-figure/src/hooks/EditableZarrGroup.ts:229-231 | finds the first subgroup with the given name, or reports that none has it |
| EditableZarrGroup.Upsert | figpack-figure/src/hooks/EditableZarrGroup.ts:228-236 | a created subgroup replaces the first listed subgroup with its name or is appended; no other subgroup is lost and nothing else is added |
| EditableZarrGroup.UpsertAll | figpack-figure/src/hooks/EditableZarrGroup.ts:227-237 | overlaying the created subgroups adds nothing but them |
| EditableZarrGroup.Subgroups | figpack-figure/src/hooks/EditableZarrGroup.ts:195-240 | the subgroups getter returns the base listing overlaid with the created subgroups |
| EditableZarrGroup.UpsertKeepsDistinct | figpack-figure/src/hooks/EditableZarrGroup.ts:228-236 | replacing or appending by name keeps subgroup names distinct |
| EditableZarrGroup.UpsertKeepsOthers | figpack-figure/src/hooks/EditableZarrGroup.ts:228-236 | a subgroup with another name survives an upsert |
| EditableZarrGroup.UpsertAllContains | figpack-figure/src/hooks/EditableZarrGroup.ts:227-237 | every created subgroup appears in the result when their names are distinct |
| EditableZarrGroup.UpsertAllKeepsLater | figpack-figure/src/hooks/EditableZarrGroup.ts:227-237 | a created subgroup appears in the result when no later created subgroup takes its name |
| EditableZarrGroup.UpsertAllKeeps | figpack-figure/src/hooks/EditableZarrGroup.ts:227-237 | a base subgroup whose name no created subgroup takes survives |
| EditableZarrGroup.UpsertAllDistinct | figpack-figure/src/hooks/EditableZarrGroup.ts:227-237 | overlaying keeps names distinct |
| EditableZarrGroup.CreatedNamesDistinct | figpack-figure/src/hooks/EditableZarrGroup.ts:208-224 | the created subgroups of one group have distinct names |
| EditableZarrGroup.CreatedPathsDistinct | figpack-figure/src/hooks/EditableZarrGroup.ts:208-224 | the created subgroups listed have distinct paths |
| EditableZarrGroup.SubgroupsView | figpack-figure/src/hooks/EditableZarrGroup.ts:195-240 | the getter shows every created, non-removed direct child under its name, never a removed group, every base subgroup whose name no created one takes (with overrides), and distinct names when the base has them |
| EditableZarrGroup.BaseDatasetsView | figpack-figure/src/hooks/EditableZarrGroup.ts:336-345 | no removed dataset is listed, and every base dataset that is not removed is listed with its attribute override applied; the order is stated by BaseDatasetsOrder |
| EditableZarrGroup.BaseDatasetsOrder | figpack-figure/src/hooks/EditableZarrGroup.ts:336-345 | the view lists exactly the kept base datasets in base order: as many entries as KeptIndices gives, the k-th being the override of the k-th kept base dataset |
| EditableZarrGroup.CreatedDatasets | figpack-figure/src/hooks/EditableZarrGroup.ts:346-363 | the created datasets listed are exactly the created, non-removed direct children |
| EditableZarrGroup.Datasets | figpack-figure/src/hooks/EditableZarrGroup.ts:335-364 | the datasets getter returns the kept base datasets followed by the created ones, never a removed dataset, and every created non-removed direct child under its name |
| EditableZarrGroup.GroupAttrs | figpack-figure/src/hooks/EditableZarrGroup.ts:366-372 | a group's attributes are its override when there is one and its base attributes otherwise |
| EditableZarrGroup.SetAttrsReadBack | figpack-figure/src/hooks/EditableZarrGroup.ts:61-71 | after setAttrs the group reads back the new attributes |
| FigureOps.ValidatePinInfo | figpack-api-cf/src/handlers/figureOpsHandler.ts:38-64 | pin information is valid exactly when no message is collected, exactly when the name is not blank and at most 100 characters and the description is not blank and has 10 to 300 characters |
| FigureOps.PinErrors | figpack-api-cf/src/handlers/figureOpsHandler.ts:43-61 | the messages `validatePinInfo` collects; specified by PinErrorsSpec |
| FigureOps.PinErrorsSpec | figpack-api-cf/src/handlers/figureOpsHandler.ts:43-61 | each message is collected exactly when its rule fails (blank name; name over 100; blank description; description under 10; over 300), at most one per field |
| FigureOps.PinFigure | figpack-api-cf/src/handlers/figureOpsHandler.ts:66-184 | `handlePinFigure`; specified by PinSpec, PinValidationMessage and PinThenUnpin |
| FigureOps.UnpinFigure | figpack-api-cf/src/handlers/figureOpsHandler.ts:186-279 | `handleUnpinFigure`; specified by UnpinSpec and PinThenUnpin |
| FigureOps.PinSpec | figpack-api-cf/src/handlers/figureOpsHandler.ts:66-184 | pinning succeeds exactly for a complete request from an authenticated owner with valid pin information on a figure that exists, is not ephemeral and is not pinned; the row then has no expiration, the trimmed name and description, and is pinned now, with identity and owner unchanged |
| FigureOps.PinValidationMessage | figpack-api-cf/src/handlers/figureOpsHandler.ts:90-100 | invalid pin information is refused with 400 and every failed rule's message, in order, joined by ", " |
| FigureOps.UnpinSpec | figpack-api-cf/src/handlers/figureOpsHandler.ts:186-279 | unpinning succeeds exactly for a complete request from an authenticated owner on a pinned figure; the figure then expires a week from now and its pin information is cleared |
| FigureOps.PinThenUnpin | figpack-api-cf/src/handlers/figureOpsHandler.ts:66-279 | unpinning a figure just pinned gives back the figure as it was, except that it expires a week after the unpinning and was updated then |
| FigureOps.RenewFigure | figpack-api-cf/src/handlers/figureOpsHandler.ts:281-395 | `handleRenewFigure`; specified by RenewSpec, PinnedNotRenewed and RenewAgain |
| FigureOps.RenewSpec | figpack-api-cf/src/handlers/figureOpsHandler.ts:281-395 | renewal succeeds exactly for a complete request from the authenticated owner or an administrator on an existing figure that is neither ephemeral nor pinned and expires within a week; the figure then expires a week from now and records the renewal time |
| FigureOps.PinnedNotRenewed | figpack-api-cf/src/handlers/figureOpsHandler.ts:281-395 | a pinned figure cannot be renewed by anyone |
| FigureOps.RenewAgain | figpack-api-cf/src/handlers/figureOpsHandler.ts:281-395 | a figure just renewed can be renewed again exactly at a later time |
| FigureOps.RenewAll | figpack-api-cf/src/handlers/figureOpsHandler.ts:416-428 | the bulk update renews exactly the matching rows and leaves every other row unchanged |
| FigureOps.EligibleRows | figpack-api-cf/src/handlers/figureOpsHandler.ts:419-426 | the rows listed all match the update's conditions |
| FigureOps.RenewAllCount | figpack-api-cf/src/handlers/figureOpsHandler.ts:416-431 | the reported count is the number of matching rows |
| FigureOps.RenewBulk | figpack-api-cf/src/handlers/figureOpsHandler.ts:397-450 | `handleRenewBulkFigures`; specified by RenewBulkSpec |
| FigureOps.RenewBulkSpec | figpack-api-cf/src/handlers/figureOpsHandler.ts:397-450 | the bulk renewal touches only the caller's figures that are unpinned, not ephemeral and expire within a week (but have an expiration); each one it renews ends as a single renewal would leave it, and the count is the number renewed |
| FigureRenewal.ValidateFigureUrl | figpack-api/pages/api/renew.ts:24-46 | a URL without the figures prefix is invalid; a valid URL has a non-empty figure id, a base URL, and continues past the prefix |
| FigureRenewal.ValidUrlSpec | figpack-api/pages/api/renew.ts:24-46 | a valid URL's figure id is non-empty and free of "/", its base URL is the prefix followed by the id, and the URL continues with the id and a "/" |
| FigureRenewal.FigureUrlValid | figpack-api/pages/api/renew.ts:24-46 | every URL made of the prefix, a non-empty id without "/", a "/" and anything after is valid with that id |
| FigureRenewal.MissingIdInvalid | figpack-api/pages/api/renew.ts:31-36 | a URL with nothing between the prefix and the next "/", or with no "/" after the prefix, is invalid |
| FigureRenewal.FileKeySpec | figpack-api/pages/api/renew.ts:60-64 | the upload goes to the bucket key "figures/default/<id>/figpack.json" |
| FigureRenewal.RenewFigure | figpack-api/pages/api/renew.ts:114-177 | the handler from the URL check on; specified by RenewFigureSpec, FarExpirationRefused, NoExpirationRefused and RenewAgain |
| FigureRenewal.Renew | figpack-api/pages/api/renew.ts:81-186 | the renewal handler; specified by RenewSpec and MissingUrlRefused |
| FigureRenewal.RenewFigureSpec | figpack-api/pages/api/renew.ts:114-177 | past the URL check, a renewal succeeds exactly when figpack.json was fetched, the renewal is due and the upload went through; the figure's own figpack.json is uploaded exactly when the renewal is due, with an expiration one week from now and the renewal time, and the answer carries that expiration; an expiration a week or more away is refused with 400 and nothing is uploaded |
| FigureRenewal.RenewSpec | figpack-api/pages/api/renew.ts:81-186 | the handler succeeds exactly for a POST of a valid figure URL whose renewal is due and whose upload went through; anything uploaded is that figure's figpack.json, renewed one week from now |
| FigureRenewal.MissingUrlRefused | figpack-api/pages/api/renew.ts:106-112 | a POST without a figure URL, or with an empty one, is refused with 400 and nothing is uploaded |
| FigureRenewal.FarExpirationRefused | figpack-api/pages/api/renew.ts:146-152 | an expiration a week or more away is refused with 400 and nothing is uploaded |
| FigureRenewal.NoExpirationRefused | figpack-api/pages/api/renew.ts:134-140 | a figure without an expiration is refused with 400 and nothing is uploaded |
| FigureRenewal.RenewAgain | figpack-api/pages/api/renew.ts:142-160 | a figure just renewed can be renewed again exactly at a later time |
| IframeUpload.IsValidOrigin | figpack-figure/src/utils/iframeUploadUtils.ts:105-125 | `isValidOrigin`; specified by SubdomainsValid, LocalhostPortsValid, LocalhostWithoutPortInvalid and LookalikeInvalid |
| IframeUpload.SubdomainsValid | figpack-figure/src/utils/iframeUploadUtils.ts:119-122 | every subdomain of figpack.org is a trusted origin, over any protocol |
| IframeUpload.LocalhostPortsValid | figpack-figure/src/utils/iframeUploadUtils.ts:106-112 | localhost with a port is trusted over http and https |
| IframeUpload.LocalhostWithoutPortInvalid | figpack-figure/src/utils/iframeUploadUtils.ts:105-125 | localhost without a port is not trusted, over http or https |
| IframeUpload.LookalikeInvalid | figpack-figure/src/utils/iframeUploadUtils.ts:105-125 | over http or https, neither figpack.org itself nor any look-alike host "<name>figpack.org" whose name holds no '.' or ':' is trusted; only subdomains and the management site are |
| IframeUpload.GetManageUrl | figpack-figure/src/utils/iframeUploadUtils.ts:181-194 | `getManageUrl`; specified by ManageUrlStripsFigure, ManageUrlCanonical and ManageUrlOrigin |
| IframeUpload.ManageUrlStripsFigure | figpack-figure/src/utils/iframeUploadUtils.ts:182-184 | a trailing "/figure" is cut off, whatever comes before it |
| IframeUpload.ManageUrlCanonical | figpack-figure/src/utils/iframeUploadUtils.ts:185-186 | any other URL on the management site maps to the site itself |
| IframeUpload.SplitLeadingSlash | figpack-figure/src/utils/iframeUploadUtils.ts:191 | a leading "/" splits off an empty first part |
| IframeUpload.SplitSchemeSlashes | figpack-figure/src/utils/iframeUploadUtils.ts:191 | "scheme//rest" splits into the scheme, an empty part and the parts of the rest |
| IframeUpload.SplitHostSlash | figpack-figure/src/utils/iframeUploadUtils.ts:191 | a host followed by "/" is the first "/"-part |
| IframeUpload.SplitHostFirst | figpack-figure/src/utils/iframeUploadUtils.ts:191 | the first "/"-part of "host/path" is the host |
| IframeUpload.HostPart | figpack-figure/src/utils/iframeUploadUtils.ts:191 | the third "/"-part of "scheme//host/path" is the host |
| IframeUpload.ManageUrlOrigin | figpack-figure/src/utils/iframeUploadUtils.ts:181-194 | any other URL maps to "http://" when it uses http, else "https://", followed by its host |
| IframeUpload.ShouldUseIframeUpload | figpack-figure/src/utils/iframeUploadUtils.ts:196-199 | `shouldUseIframeUpload`; specified by IframeUploadSpec |
| IframeUpload.IframeUploadSpec | figpack-figure/src/utils/iframeUploadUtils.ts:196-199 | figures on figures.figpack.org are uploaded through the iframe, local ones are not |
| IframeUpload.ParentMessageHandler.constructor | figpack-figure/src/utils/iframeUploadUtils.ts:52-64 | a new handler has no iframe, no origin, no message handlers, a pending ready promise, and has delivered and sent nothing |
| IframeUpload.ParentMessageHandler.Receive | figpack-figure/src/utils/iframeUploadUtils.ts:66-103 | a message from an untrusted origin changes nothing; a trusted one sets the origin if none is known; a message with a type and payload resolves the pending ready promise if it is the first READY, and otherwise is handed to the handler registered for its type, if any |
| IframeUpload.ParentMessageHandler.SetIframe | figpack-figure/src/utils/iframeUploadUtils.ts:127-130 | attaches the iframe and sets its origin, changing nothing else |
| IframeUpload.ParentMessageHandler.OnMessage | figpack-figure/src/utils/iframeUploadUtils.ts:136-143 | registers a handler for the type, changing nothing else |
| IframeUpload.ParentMessageHandler.SendUploadRequest | figpack-figure/src/utils/iframeUploadUtils.ts:145-169 | an upload request is posted, addressed to the iframe's origin, only when an iframe and its origin are known; nothing else changes |
| IframeUpload.ParentMessageHandler.Cleanup | figpack-figure/src/utils/iframeUploadUtils.ts:171-176 | forgets the handlers, the iframe and its origin, keeping the pending ready promise |
| IframeUpload.OriginIsLatched | figpack-figure/src/utils/iframeUploadUtils.ts:74-77 | once the origin is learnt from a trusted message, a later message keeps it |
| IframeUpload.ReadyOnce | figpack-figure/src/utils/iframeUploadUtils.ts:81-92 | the first READY resolves the ready promise without reaching a handler; a second READY goes to its handler like any message |
| LinearDecode.NanMax | extension_packages/figpack_experimental/figpack_experimental/views/LinearDecode.py:89 | the NaN-ignoring max of two cells is one of them, is NaN exactly when both are, and is at least every number among them |
| LinearDecode.ColumnMax | extension_packages/figpack_experimental/figpack_experimental/views/LinearDecode.py:85-89 | the NaN-ignoring max of a column over a block is NaN exactly when every cell is, is at least every number in the block, and is one of the block's cells |
| LinearDecode.Downsample4 | extension_packages/figpack_experimental/figpack_experimental/views/LinearDecode.py:79-110 | one pyramid step has ceil(B/4) rows of the same width |
| LinearDecode.Level | extension_packages/figpack_experimental/figpack_experimental/views/LinearDecode.py:112-122 | every pyramid level has the data's width |
| LinearDecode.ComputeDownsampledData | extension_packages/figpack_experimental/figpack_experimental/views/LinearDecode.py:63-124 | no level for fewer than 4 timepoints; otherwise the factors are 4, 16, 64, ... (factor 4 always, each later one below N/1000, the first factor not listed at or above N/1000), and the level stored under factor 4^k is the k-fold 4x max reduction of the data |
| LinearDecode.Levels | extension_packages/figpack_experimental/figpack_experimental/views/LinearDecode.py:113-122 | the list of levels 1..n has n entries |
| LinearDecode.LevelsIndex | extension_packages/figpack_experimental/figpack_experimental/views/LinearDecode.py:113-122 | entry i of the list is level i+1 |
| LinearDecode.LevelStep | extension_packages/figpack_experimental/figpack_experimental/views/LinearDecode.py:117-122 | each level is the 4x reduction of the one before |
| LinearDecode.LevelDatasetName | extension_packages/figpack_experimental/figpack_experimental/views/LinearDecode.py:192 | the dataset name of a level; specified by LevelDatasetNamesDistinct |
| LinearDecode.LevelDatasetNamesDistinct | extension_packages/figpack_experimental/figpack_experimental/views/LinearDecode.py:191-192 | distinct factors are stored under distinct dataset names "data_ds_<factor>" |
| LinearDecode.Downsample4Pools | extension_packages/figpack_experimental/figpack_experimental/views/LinearDecode.py:92-110 | each cell of a step pools the 1 to 4 cells of its block: NaN exactly when all are, at least each number, and equal to one of them |
| LinearDecode.LevelDominates | extension_packages/figpack_experimental/figpack_experimental/views/LinearDecode.py:63-124 | no raw value exceeds the cell that covers it at any level, and that cell is a number |
| LinearDecode.Log2FloorBounds | extension_packages/figpack_experimental/figpack_experimental/views/LinearDecode.py:151-152 | 2^floor(log2 n) is a power of two not above n, and doubling it exceeds n |
| LinearDecode.ChunkShape | extension_packages/figpack_experimental/figpack_experimental/views/LinearDecode.py:126-160 | zero frequencies divide by zero and a row wider than 5 MiB takes the log of zero; otherwise the chunk spans all frequencies, has at most N rows (at least one when N >= 1), fits in 5 MiB, and when fewer than N rows it is the largest power of two whose rows fit |
| LinearDecode.ChunkShapeFacts | extension_packages/figpack_experimental/figpack_experimental/views/LinearDecode.py:147-154 | the power of two chosen fits in 5 MiB and its double does not |
| LinearDecode.ChunkFallbackUnreachable | extension_packages/figpack_experimental/figpack_experimental/views/LinearDecode.py:153-158 | the fallback for a chunk longer than N can never run: the rows are the power of two clamped to N |
| MarkdownFragments.EditedContent | extension_packages/figpack_slides/src/views/Markdown/FPMarkdown.tsx:62-80 | the content shown after edits; specified by LastEditUntouched and LastEditWins |
| MarkdownFragments.LastEditUntouched | extension_packages/figpack_slides/src/views/Markdown/FPMarkdown.tsx:70-79 | without an edit of the section among the slide's actions, the content is kept |
| MarkdownFragments.LastEditWins | extension_packages/figpack_slides/src/views/Markdown/FPMarkdown.tsx:70-79 | otherwise the content is that of the last edit of the section |
| MarkdownFragments.ComputeEditedContent | extension_packages/figpack_slides/src/views/Markdown/FPMarkdown.tsx:62-80 | the loop computes the shown content: the original when the edits, section or slide are unknown or the slide has no actions, else the last edit of the section |
| MarkdownFragments.JoinEach | extension_packages/figpack_slides/src/views/Markdown/FPMarkdown.tsx:232 | joining each fragment's lines gives one string per fragment |
| MarkdownFragments.FlattenSnoc | extension_packages/figpack_slides/src/views/Markdown/FPMarkdown.tsx:230-235 | the lines of the fragments grow by the lines of the fragment pushed |
| MarkdownFragments.FlushKeeps | extension_packages/figpack_slides/src/views/Markdown/FPMarkdown.tsx:230-235 | pushing the pending lines keeps every kept line, in order, and leaves nothing pending |
| MarkdownFragments.StepKeeps | extension_packages/figpack_slides/src/views/Markdown/FPMarkdown.tsx:237-259 | one line of the loop keeps the lines read so far, adding the line unless it is a block marker |
| MarkdownFragments.ScanInvariant | extension_packages/figpack_slides/src/views/Markdown/FPMarkdown.tsx:237-259 | after the loop, the fragments and the pending lines together hold exactly the non-marker lines read, in order |
| MarkdownFragments.Fragments | extension_packages/figpack_slides/src/views/Markdown/FPMarkdown.tsx:211-263 | `getFragmentsForContent`; specified by FragmentLinesSpec, MarkersDropped and BulletIsFragment |
| MarkdownFragments.FragmentLinesSpec | extension_packages/figpack_slides/src/views/Markdown/FPMarkdown.tsx:211-263 | every fragment holds at least one line, and the fragments' lines in order are exactly the content's lines without the block markers |
| MarkdownFragments.NonMarkersHasNoMarker | extension_packages/figpack_slides/src/views/Markdown/FPMarkdown.tsx:239-246 | the kept lines hold no block marker |
| MarkdownFragments.FlattenHas | extension_packages/figpack_slides/src/views/Markdown/FPMarkdown.tsx:232 | every line of every fragment is among the fragments' lines |
| MarkdownFragments.MarkersDropped | extension_packages/figpack_slides/src/views/Markdown/FPMarkdown.tsx:239-246 | no block marker line ever reaches a fragment |
| MarkdownFragments.ScanGrows | extension_packages/figpack_slides/src/views/Markdown/FPMarkdown.tsx:237-259 | fragments already pushed are never taken back by later lines |
| MarkdownFragments.BulletIsFragment | extension_packages/figpack_slides/src/views/Markdown/FPMarkdown.tsx:247-254 | a bullet line read inside an incremental block is a fragment on its own |
| MarkdownFragments.JoinFlatten | extension_packages/figpack_slides/src/views/Markdown/FPMarkdown.tsx:109-111 | joining the joined fragments with newlines gives the joined lines they hold |
| MarkdownFragments.JoinAppend | extension_packages/figpack_slides/src/views/Markdown/FPMarkdown.tsx:109-111 | joining a concatenation with newlines joins the two joins with a newline |
| MarkdownFragments.VisibleContent | extension_packages/figpack_slides/src/views/Markdown/FPMarkdown.tsx:107-112 | the `visibleContent` memo; specified by VisibleFragments and FullContentShown |
| MarkdownFragments.VisibleFragments | extension_packages/figpack_slides/src/views/Markdown/FPMarkdown.tsx:107-112 | in presentation mode exactly the first currentFragmentIndex + 1 fragments are shown (all when there are fewer), otherwise all |
| MarkdownFragments.FullContentShown | extension_packages/figpack_slides/src/views/Markdown/FPMarkdown.tsx:107-112 | outside presentation mode the view shows the content without its block-marker lines |
| MarkdownFragments.JoinEachSnoc | extension_packages/figpack_slides/src/views/Markdown/FPMarkdown.tsx:232 | joining each fragment distributes over pushing one more |
| MarkdownFragments.GetFragmentsForContent | extension_packages/figpack_slides/src/views/Markdown/FPMarkdown.tsx:211-263 | the loop returns the fragments of the content |
| MarkdownFragments.ReadLine | extension_packages/figpack_slides/src/views/Markdown/FPMarkdown.tsx:238-258 | one iteration: a block opener or closer pushes the pending lines and sets the block flag; a bullet inside a block becomes a fragment of its own; any other line is added to the pending lines |
| MarkdownFragments.PushCurrentFragment | extension_packages/figpack_slides/src/views/Markdown/FPMarkdown.tsx:230-235 | the pending lines, if any, become a fragment, and nothing is pending afterwards |
| MountainLayout.PartitionFlags | figpack-figure/src/figpack-main-plugin/views/FPMountainLayout.tsx:45-58 | every item in the control list is a control item and no item in the regular list is |
| MountainLayout.PartitionCount | figpack-figure/src/figpack-main-plugin/views/FPMountainLayout.tsx:45-58 | every item lands in exactly one of the two lists, as often as it occurs |
| MountainLayout.PartitionOrder | figpack-figure/src/figpack-main-plugin/views/FPMountainLayout.tsx:49-55 | the split keeps the items' order: the lists of a concatenation are the concatenations of the lists |
| MountainLayout.ControlPanelHeight | figpack-figure/src/figpack-main-plugin/views/FPMountainLayout.tsx:69-73 | the control panel is as tall as the first control item's height (200 when that is absent or zero), and 0 without control items |
| MountainLayout.FindTab | figpack-figure/src/figpack-main-plugin/views/FPMountainLayout.tsx:86 | finds the first tab open for the item, or -1 when there is none |
| MountainLayout.Without | figpack-figure/src/figpack-main-plugin/views/FPMountainLayout.tsx:117 | removes exactly the tab at the index, and nothing when the index is out of range |
| MountainLayout.OpenView | figpack-figure/src/figpack-main-plugin/views/FPMountainLayout.tsx:79-107 | `openView`; specified by OpenViewSpec and OpenViewValid |
| MountainLayout.CloseTab | figpack-figure/src/figpack-main-plugin/views/FPMountainLayout.tsx:110-141 | `closeTab`; specified by CloseTabSpec |
| MountainLayout.SetWorkspaceFocus | figpack-figure/src/figpack-main-plugin/views/FPMountainLayout.tsx:144-146 | only the focus moves: the focused workspace is the one given, both workspaces keep their tabs and active tab, and a valid state stays valid |
| MountainLayout.OpenViewSpec | figpack-figure/src/figpack-main-plugin/views/FPMountainLayout.tsx:79-107 | opening an item changes only the focused workspace: an item already open keeps the tabs and becomes active; otherwise a tab is appended for it and becomes active |
| MountainLayout.OpenViewValid | figpack-figure/src/figpack-main-plugin/views/FPMountainLayout.tsx:79-107 | opening an item keeps every workspace free of duplicate tabs and its active index valid (-1 exactly when empty) |
| MountainLayout.CloseTabSpec | figpack-figure/src/figpack-main-plugin/views/FPMountainLayout.tsx:110-141 | closing a tab removes exactly that tab; the other workspace is untouched; closing the active tab selects the previous one (the first when it was first, none when the workspace empties), closing one before it shifts the index down, and after it keeps it; the state stays valid |
| MountainLayout.FocusThenOpen | figpack-figure/src/figpack-main-plugin/views/FPMountainLayout.tsx:79-146 | after the focus moves to a workspace, opening an item makes its tab the active one there and leaves the other workspace as it was |
| MultiChannelIntervals.MakeView | extension_packages/figpack_experimental/figpack_experimental/views/MultiChannelIntervals.py:44-65 | a view is made exactly for 3-dimensional data, a positive sampling rate and (when given) as many channel ids as channels; the checks fail in source order; the view keeps the three dimensions and one id per channel, "ch_<i>" by default or the text of the given id |
| MultiChannelIntervals.DefaultChannelId | extension_packages/figpack_experimental/figpack_experimental/views/MultiChannelIntervals.py:59 | the default id of a channel; specified by DefaultChannelIdsDistinct |
| MultiChannelIntervals.DefaultChannelIdsDistinct | extension_packages/figpack_experimental/figpack_experimental/views/MultiChannelIntervals.py:58-59 | default channel ids are distinct |
| MultiChannelIntervals.IntervalBytesZero | extension_packages/figpack_experimental/figpack_experimental/views/MultiChannelIntervals.py:116-119 | an interval has no bytes exactly when it has no timepoints or no channels, the case that divides by zero |
| MultiChannelIntervals.IntervalChunk | extension_packages/figpack_experimental/figpack_experimental/views/MultiChannelIntervals.py:111-124 | division by zero exactly for intervals without bytes; otherwise a chunk spans whole intervals in full, holds at most all intervals (at least one when there are any), fits in 5 MiB when it holds more than one, and one more interval would not fit when it holds fewer than all |
| MultiChannelIntervals.IntervalChunkFacts | extension_packages/figpack_experimental/figpack_experimental/views/MultiChannelIntervals.py:117-123 | the clamped interval count is between 1 and the number of intervals, fits when above 1, and is maximal when below the number of intervals |
| RasterPlotData.CountsRow | figpack-figure/packages/figpack-spike-sorting-plugin/src/view-raster-plot-4/RasterPlotDataClient.ts:79-86 | row i holds the numUnits counts starting at i * numUnits, zero past the dataset's end |
| RasterPlotData.Counts2d | figpack-figure/packages/figpack-spike-sorting-plugin/src/view-raster-plot-4/RasterPlotDataClient.ts:75-87 | the table has numBins rows of numUnits counts, cell (i, j) being element i * numUnits + j of the flat dataset or zero past its end |
| RasterPlotData.CountsCoverFlat | figpack-figure/packages/figpack-spike-sorting-plugin/src/view-raster-plot-4/RasterPlotDataClient.ts:78-87 | for a dataset of exactly numBins * numUnits elements, every element lands in the cell its index names |
| RasterPlotData.BinEdges | figpack-figure/packages/figpack-spike-sorting-plugin/src/view-raster-plot-4/RasterPlotDataClient.ts:89-93 | there are numBins + 1 edges, edge i at startTimeSec + i, one second apart |
| RasterPlotData.CreateTables | figpack-figure/packages/figpack-spike-sorting-plugin/src/view-raster-plot-4/RasterPlotDataClient.ts:74-93 | a negative bin count ceil(end - start) fails (the array constructor throws); otherwise the count table and bin edges are built as above |
| RasterPlotData.StartPos | figpack-figure/packages/figpack-spike-sorting-plugin/src/view-raster-plot-4/RasterPlotDataClient.ts:151-154 | the forward scan stops at the first position whose successor's time is at or after the start time, or at the last position |
| RasterPlotData.EndPos | figpack-figure/packages/figpack-spike-sorting-plugin/src/view-raster-plot-4/RasterPlotDataClient.ts:221-224 | the backward scan stops at the first position from the top whose predecessor's time is at or before the end time, or at position 0 |
| RasterPlotData.StartRef | figpack-figure/packages/figpack-spike-sorting-plugin/src/view-raster-plot-4/RasterPlotDataClient.ts:146-156 | the forward scan answers the reference index where it stops; an empty reference array gives index 0 of the indices, normally undefined |
| RasterPlotData.EndRef | figpack-figure/packages/figpack-spike-sorting-plugin/src/view-raster-plot-4/RasterPlotDataClient.ts:216-226 | the backward scan answers the reference index where it stops; an empty reference array gives index -1, which is undefined |
| RasterPlotData.FindStartIndex | figpack-figure/packages/figpack-spike-sorting-plugin/src/view-raster-plot-4/RasterPlotDataClient.ts:146-156 | the loop returns the forward scan's reference index |
| RasterPlotData.FindEndIndex | figpack-figure/packages/figpack-spike-sorting-plugin/src/view-raster-plot-4/RasterPlotDataClient.ts:216-226 | the loop returns the backward scan's reference index |
| RasterPlotData.StartStopUnique | figpack-figure/packages/figpack-spike-sorting-plugin/src/view-raster-plot-4/RasterPlotDataClient.ts:151-154 | the forward scan stops at exactly one position |
| RasterPlotData.EndStopUnique | figpack-figure/packages/figpack-spike-sorting-plugin/src/view-raster-plot-4/RasterPlotDataClient.ts:221-224 | the backward scan stops at exactly one position |
| RasterPlotData.StartNotAfterEnd | figpack-figure/packages/figpack-spike-sorting-plugin/src/view-raster-plot-4/RasterPlotDataClient.ts:146-226 | for sorted reference times and a start time not after the end time, the forward scan stops at or before the backward scan |
| RasterPlotData.DataForRange | figpack-figure/packages/figpack-spike-sorting-plugin/src/view-raster-plot-4/RasterPlotDataClient.ts:107-144 | no spikes when the start index is not below the end index; otherwise the timestamps and unit indices in [start, end); an undefined index leaves the range unresolved |
| RasterPlotData.DownsamplingFactor | figpack-figure/packages/figpack-spike-sorting-plugin/src/view-raster-plot-4/RasterPlotDataClient.ts:166-169 | the factor is the least d >= 1 for which the bins span over d is at most 500 |
| RasterPlotData.ColumnSumSplit | figpack-figure/packages/figpack-spike-sorting-plugin/src/view-raster-plot-4/RasterPlotDataClient.ts:184-196 | a unit's total over rows [lo, hi) is the total over [lo, mid) plus that over [mid, hi) |
| RasterPlotData.BinTotals | figpack-figure/packages/figpack-spike-sorting-plugin/src/view-raster-plot-4/RasterPlotDataClient.ts:186-193 | one output bin holds a total per unit |
| RasterPlotData.AddRow | figpack-figure/packages/figpack-spike-sorting-plugin/src/view-raster-plot-4/RasterPlotDataClient.ts:189-191 | adding a row adds each unit's count to that unit's total |
| RasterPlotData.AggregateBin | figpack-figure/packages/figpack-spike-sorting-plugin/src/view-raster-plot-4/RasterPlotDataClient.ts:186-193 | output bin i holds, for each unit, the sum of rows [i, min(i + d, length)) |
| RasterPlotData.Aggregate | figpack-figure/packages/figpack-spike-sorting-plugin/src/view-raster-plot-4/RasterPlotDataClient.ts:184-196 | re-binning by d gives ceil(length / d) bins |
| RasterPlotData.BinStartInRange | figpack-figure/packages/figpack-spike-sorting-plugin/src/view-raster-plot-4/RasterPlotDataClient.ts:184 | each output bin starts inside the table |
| RasterPlotData.BinSumsPrefix | figpack-figure/packages/figpack-spike-sorting-plugin/src/view-raster-plot-4/RasterPlotDataClient.ts:184-196 | summing the first m output bins of a unit gives that unit's total over the first m * d rows |
| RasterPlotData.BinBounds | figpack-figure/packages/figpack-spike-sorting-plugin/src/view-raster-plot-4/RasterPlotDataClient.ts:184-188 | an output bin starting inside the table covers rows [b * d, min(b * d + d, length)) |
| RasterPlotData.AggregateCell | figpack-figure/packages/figpack-spike-sorting-plugin/src/view-raster-plot-4/RasterPlotDataClient.ts:184-196 | output bin b of unit k is the unit's sum over rows [b * d, min(b * d + d, length)) |
| RasterPlotData.ColumnSnoc | figpack-figure/packages/figpack-spike-sorting-plugin/src/view-raster-plot-4/RasterPlotDataClient.ts:184-196 | a unit's column total grows by the last row's count |
| RasterPlotData.ColumnPrefixSnoc | figpack-figure/packages/figpack-spike-sorting-plugin/src/view-raster-plot-4/RasterPlotDataClient.ts:184-196 | the same, for a prefix of the rows |
| RasterPlotData.Column | figpack-figure/packages/figpack-spike-sorting-plugin/src/view-raster-plot-4/RasterPlotDataClient.ts:190 | a unit's column has one entry per row |
| RasterPlotData.AggregateKeepsTotals | figpack-figure/packages/figpack-spike-sorting-plugin/src/view-raster-plot-4/RasterPlotDataClient.ts:184-196 | re-binning keeps each unit's total spike count over the range |
| RasterPlotData.SpikeCountsForRange | figpack-figure/packages/figpack-spike-sorting-plugin/src/view-raster-plot-4/RasterPlotDataClient.ts:158-214 | the factor is the least that leaves at most 500 bins; with factor 1 the sliced tables are returned as they are; otherwise the counts are the re-binned slice, each output bin starts at the edge of its first row, and one closing edge, at min(last edge, bins * d), follows when there are edges |
| RasterPlotData.Defined | figpack-figure/packages/figpack-spike-sorting-plugin/src/view-raster-plot-4/RasterPlotDataClient.ts:173-179 | every edge of a slice of the bin edges is a defined number |
| RasterPlotData.NextBin | figpack-figure/packages/figpack-spike-sorting-plugin/src/view-raster-plot-4/RasterPlotDataClient.ts:184 | a bin starting inside the table is counted, and the next starts d rows later |
| RasterPlotData.LastBin | figpack-figure/packages/figpack-spike-sorting-plugin/src/view-raster-plot-4/RasterPlotDataClient.ts:184 | the loop ends after exactly ceil(length / d) bins |
| SeriesLoading.SelectDownsampleFactor | figpack-figure/src/figpack-main-plugin/views/TimeseriesGraph/dataLoading.ts:3-18 | the factor picked is 1, which is always offered for the original data, or one of the stored factors; when some offered factor leaves more samples in view than the canvas has pixels, the pick is such a factor and no larger offered factor does; otherwise it is the smallest offered factor, except that a stored factor 0, being the smallest, gives 1 through `|| 1` |
| SeriesLoading.SortedFactors | figpack-figure/src/figpack-main-plugin/views/TimeseriesGraph/dataLoading.ts:9 | sorting the offered factors largest first keeps exactly the same factors, in non-increasing order |
| SeriesLoading.IndexWindow | figpack-figure/src/figpack-main-plugin/views/TimeseriesGraph/dataLoading.ts:31-42 | the first index is the floor of the visible start's sample position clamped below at 0, the last is the ceiling of the visible end's position clamped above at count - 1 |
| SeriesLoading.WindowInRange | figpack-figure/src/figpack-main-plugin/views/TimeseriesGraph/dataLoading.ts:31-44 | a visible range that starts inside the recording yields a non-empty run of indices 0 <= start <= end < count |
| SeriesLoading.OriginalChannel | figpack-figure/src/figpack-main-plugin/views/TimeseriesGraph/dataLoading.ts:61-64 | copying one channel out of interleaved samples gives, at each position i, the raw sample i * nChannels + ch (missing past the end of the raw data) |
| SeriesLoading.SplitOriginal | figpack-figure/src/figpack-main-plugin/views/TimeseriesGraph/dataLoading.ts:59-66 | splitting the interleaved block yields nChannels arrays of the requested length, each element the raw sample at i * nChannels + ch |
| SeriesLoading.SplitInterleaveRoundTrip | figpack-figure/src/figpack-main-plugin/views/TimeseriesGraph/dataLoading.ts:59-66 | splitting a block interleaved from equal-length channels gives the channels back |
| SeriesLoading.LoadOriginal | figpack-figure/src/figpack-main-plugin/views/TimeseriesGraph/dataLoading.ts:20-74 | fails exactly when the index window is empty; otherwise reports the window's first index and length, the time of its first sample (startTimeSec + startIndex / rate, NaN for a zero rate over index 0), the series' sampling rate, and nChannels arrays of that length, each element the interleaved sample at i * nChannels + ch |
| SeriesLoading.WindowStartTime | figpack-figure/src/figpack-main-plugin/views/TimeseriesGraph/dataLoading.ts:68-73 | the reported start time of a window: the series start plus the first index divided by the rate; specified by FirstSampleTime |
| SeriesLoading.FirstSampleTime | figpack-figure/src/figpack-main-plugin/views/TimeseriesGraph/dataLoading.ts:31-73 | for a positive rate the reported start time is a number; it is the series start when the visible range begins at or before the series start, and otherwise lies at most one sample period before the visible start |
| SeriesLoading.MinMaxChannel | figpack-figure/src/figpack-main-plugin/views/TimeseriesGraph/dataLoading.ts:118-129 | one channel's array holds, for each downsampled step i, the minimum and then the maximum stored at the pair's offsets |
| SeriesLoading.SplitMinMax | figpack-figure/src/figpack-main-plugin/views/TimeseriesGraph/dataLoading.ts:116-131 | every channel array holds 2 * length values, the min/max pairs of that channel at each step |
| SeriesLoading.MinMaxOffsetInjective | figpack-figure/src/figpack-main-plugin/views/TimeseriesGraph/dataLoading.ts:121-126 | distinct (step, min-or-max, channel) triples read distinct offsets of the fetched block, so no sample is shared between two slots |
| SeriesLoading.OffsetRow | figpack-figure/src/figpack-main-plugin/views/TimeseriesGraph/dataLoading.ts:121-126 | every offset of step i lies within row i of the block, which holds 2 * nChannels values |
| SeriesLoading.LoadDownsampled | figpack-figure/src/figpack-main-plugin/views/TimeseriesGraph/dataLoading.ts:76-140 | the window is taken at the rate divided by the factor over ceil(nTimepoints / factor) steps; fails exactly when that window is empty; otherwise reports that divided rate as the sampling frequency, the time of the window's first step at that rate, and nChannels arrays of 2 * length values, the min/max pairs read by MinMaxOffset |
| SlideEditor.Classify | extension_packages/figpack_slides/figpack_slides/edit_server.py:124-151 | a line is a separator exactly when it is "* * *" and a title line exactly when, stripped, it starts with "# " |
| SlideEditor.Classified | extension_packages/figpack_slides/figpack_slides/edit_server.py:124-151 | one classification per line, with the separators exactly the "* * *" lines |
| SlideEditor.FirstTitle | extension_packages/figpack_slides/figpack_slides/edit_server.py:88-96 | the index found is the first title line: a title line with no title line before it, or none when there is no title line |
| SlideEditor.RetitleSpec | extension_packages/figpack_slides/figpack_slides/edit_server.py:86-98 | the number of lines is kept, the first title line becomes "# " + the new title, and every other line, including later title lines, is unchanged |
| SlideEditor.RetitleLines | extension_packages/figpack_slides/figpack_slides/edit_server.py:88-96 | the loop with the "title found" flag replaces exactly the first title line |
| SlideEditor.UpdateTitle | extension_packages/figpack_slides/figpack_slides/edit_server.py:75-98 | computes the retitled slide, and a slide without a title line comes back unchanged |
| SlideEditor.TitleUpdatedLines | extension_packages/figpack_slides/figpack_slides/edit_server.py:86-98 | with a one-line title, splitting the result gives the old lines with the first title line replaced |
| SlideEditor.ScanStep | extension_packages/figpack_slides/figpack_slides/edit_server.py:124-163 | a line inside a metadata or overlay block never opens or closes a section; only a separator closes the open section, ending it on the line before, and it always opens the next one on the line after |
| SlideEditor.ScanStepFacts | extension_packages/figpack_slides/figpack_slides/edit_server.py:124-163 | one line of the scan keeps the closed sections ordered, disjoint and ending before separators, with the open one starting after them |
| SlideEditor.ScanInvariant | extension_packages/figpack_slides/figpack_slides/edit_server.py:124-163 | after any number of lines the closed sections are well formed, each ends just before a separator, and the open one starts after them |
| SlideEditor.Sections | extension_packages/figpack_slides/figpack_slides/edit_server.py:118-167 | the sections of a slide; specified by SectionsShape |
| SlideEditor.SectionsShape | extension_packages/figpack_slides/figpack_slides/edit_server.py:118-167 | the sections of a slide are in order and disjoint, every section but the last ends on the line before a "* * *" line, and the last runs to the end of the slide |
| SlideEditor.SectionsOfShape | extension_packages/figpack_slides/figpack_slides/edit_server.py:124-167 | the same shape for the scan over classified lines |
| SlideEditor.FinalSections | extension_packages/figpack_slides/figpack_slides/edit_server.py:165-167 | closing the section still open at the end keeps the sections in order and ending at separators, the last one at the last line |
| SlideEditor.SectionBounds | extension_packages/figpack_slides/figpack_slides/edit_server.py:176 | a section's first and last lines lie within the slide |
| SlideEditor.SectionReplaced | extension_packages/figpack_slides/figpack_slides/edit_server.py:169-173 | the update fails exactly when the section index is negative or at least the number of sections, with that index and count in the error |
| SlideEditor.SectionReplacedLines | extension_packages/figpack_slides/figpack_slides/edit_server.py:176-192 | with one-line new content, the lines before and after the section are kept and the section gives way to the stripped content, or to nothing when that is empty |
| SlideEditor.ReplaceLinesSpec | extension_packages/figpack_slides/figpack_slides/edit_server.py:179-192 | splitting the spliced text gives the lines before the section, the stripped content if non-empty and the lines after, or the empty text when nothing is left |
| SlideEditor.SpliceLines | extension_packages/figpack_slides/figpack_slides/edit_server.py:179-192 | joining a splice of newline-free lines and splitting it again gives the splice back |
| SlideEditor.ScanSections | extension_packages/figpack_slides/figpack_slides/edit_server.py:118-167 | the line scan computes the sections Sections describes |
| SlideEditor.ScanLines | extension_packages/figpack_slides/figpack_slides/edit_server.py:124-167 | the loop over classified lines computes SectionsOf |
| SlideEditor.UpdateSection | extension_packages/figpack_slides/figpack_slides/edit_server.py:100-192 | the scan and splice compute SectionReplaced |
| SlideEditor.SpliceSection | extension_packages/figpack_slides/figpack_slides/edit_server.py:178-192 | the splice computes ReplaceLines |
| SlideEditor.KnownActions | extension_packages/figpack_slides/figpack_slides/edit_server.py:47-59 | the known actions are no more than the actions and none of them is unknown |
| SlideEditor.UnknownActionsIgnored | extension_packages/figpack_slides/figpack_slides/edit_server.py:47-59 | applying an edit's actions gives the same outcome as applying only its known actions |
| SlideEditor.EditedContent | extension_packages/figpack_slides/figpack_slides/edit_server.py:20-61 | what `apply_edits` writes back; specified by ApplySlideEdits, InvalidSlideIndexFails and NoEditsKeepContent |
| SlideEditor.ApplySlideEdits | extension_packages/figpack_slides/figpack_slides/edit_server.py:37-59 | a successful batch keeps the number of slides, and a slide no edit names keeps its text |
| SlideEditor.InvalidSlideIndexFails | extension_packages/figpack_slides/figpack_slides/edit_server.py:41-44 | an edit naming a slide index below 0 or at least the slide count makes the whole batch fail |
| SlideEditor.NoEditsKeepContent | extension_packages/figpack_slides/figpack_slides/edit_server.py:34-61 | with no edits the content is written back unchanged |
| SlideEditor.ApplyActionsTo | extension_packages/figpack_slides/figpack_slides/edit_server.py:47-58 | the inner loop applies the actions in order, stopping at the first error |
| SlideEditor.ApplyEdits | extension_packages/figpack_slides/figpack_slides/edit_server.py:20-61 | split at "\n---\n", the edits applied in order, joined again; computes EditedContent |
| SlideParser.LastValue | extension_packages/figpack_slides/figpack_slides/parse_markdown/parse_markdown.py:80-85 | a key has a last value exactly when some item has that key, and the value found is one of that key's items |
| SlideParser.StoreItemsSpec | extension_packages/figpack_slides/figpack_slides/parse_markdown/parse_markdown.py:80-85 | after storing a block's items a key is present exactly when it was before or some non-excluded item has it, and holds the last such item's value, else its old value |
| SlideParser.ApplySlideMetadata | extension_packages/figpack_slides/figpack_slides/parse_markdown/parse_markdown.py:80-85 | the slide-metadata loop sets the slide type to the last "slide-type" value and stores every other key as a string |
| SlideParser.ApplySectionMetadata | extension_packages/figpack_slides/figpack_slides/parse_markdown/parse_markdown.py:96-98 | the section-metadata loop stores every key of the block into the last section's metadata |
| SlideParser.DropLeadingEmpty | extension_packages/figpack_slides/figpack_slides/parse_markdown/parse_markdown.py:102-106 | the lines left after dropping leading empty lines start with a non-empty line |
| SlideParser.AccumulatedJoins | extension_packages/figpack_slides/figpack_slides/parse_markdown/parse_markdown.py:102-106 | adding content lines one by one gives them joined by "\n", in order, leading empty lines dropped |
| SlideParser.Step | extension_packages/figpack_slides/figpack_slides/parse_markdown/parse_markdown.py:47-106 | one line never leaves the slide without a section |
| SlideParser.StepFails | extension_packages/figpack_slides/figpack_slides/parse_markdown/parse_markdown.py:54-101 | a line fails exactly when it opens a metadata block while one is already open, or when it is the closing "---" of a block whose text the YAML reader refuses; a failure at a closing fence is that YAML error |
| SlideParser.StepShape | extension_packages/figpack_slides/figpack_slides/parse_markdown/parse_markdown.py:48-53 | only a "* * *" line adds a section, exactly one, and only a first "# " line of a slide still without a title sets the title |
| SlideParser.StepPlain | extension_packages/figpack_slides/figpack_slides/parse_markdown/parse_markdown.py:102-106 | outside metadata blocks a plain line is appended to the content of the last section |
| SlideParser.StepOpens | extension_packages/figpack_slides/figpack_slides/parse_markdown/parse_markdown.py:54-71 | a block opener that does not fail opens a metadata block |
| SlideParser.StepInBlock | extension_packages/figpack_slides/figpack_slides/parse_markdown/parse_markdown.py:72-101 | inside a block, a line that neither closes nor opens a block keeps it open |
| SlideParser.Lines | extension_packages/figpack_slides/figpack_slides/parse_markdown/parse_markdown.py:47-106 | the line loop never leaves the slide without a section |
| SlideParser.LinesAppend | extension_packages/figpack_slides/figpack_slides/parse_markdown/parse_markdown.py:47-106 | the loop over two runs of lines is the loop over the second from where the first stopped |
| SlideParser.LinesShape | extension_packages/figpack_slides/figpack_slides/parse_markdown/parse_markdown.py:48-53 | after the loop there is one more section per "* * *" line and the title is the first non-empty "# " title, unless one was set before |
| SlideParser.ParseSlide | extension_packages/figpack_slides/figpack_slides/parse_markdown/parse_markdown.py:29-107 | one slide; specified by ParsedSlideShape and NestedMetadataFails |
| SlideParser.ParsedSlideShape | extension_packages/figpack_slides/figpack_slides/parse_markdown/parse_markdown.py:33-53 | a parsed slide has one section more than it has "* * *" lines, and its title is its first non-empty "# " title |
| SlideParser.PlainLinesAccumulate | extension_packages/figpack_slides/figpack_slides/parse_markdown/parse_markdown.py:102-106 | plain lines outside blocks become the last section's content, joined by "\n" after any content already there |
| SlideParser.BlockStaysOpen | extension_packages/figpack_slides/figpack_slides/parse_markdown/parse_markdown.py:72-101 | lines that neither close nor open a block keep a metadata block open |
| SlideParser.NestedMetadataFails | extension_packages/figpack_slides/figpack_slides/parse_markdown/parse_markdown.py:54-71 | a metadata block opened while another is open, whatever came before, makes the slide fail |
| SlideParser.OpenedTwice | extension_packages/figpack_slides/figpack_slides/parse_markdown/parse_markdown.py:54-71 | from any state, a block opener, lines that keep it open and a second opener fail |
| SlideParser.LinesFailedPrefix | extension_packages/figpack_slides/figpack_slides/parse_markdown/parse_markdown.py:55-69 | once the loop fails on a prefix of the lines, the slide fails with that error |
| SlideParser.SlideResults | extension_packages/figpack_slides/figpack_slides/parse_markdown/parse_markdown.py:28-29 | each raw chunk is read on its own, in order |
| SlideParser.Collect | extension_packages/figpack_slides/figpack_slides/parse_markdown/parse_markdown.py:27-107 | a successful collection has one value per outcome |
| SlideParser.CollectSpec | extension_packages/figpack_slides/figpack_slides/parse_markdown/parse_markdown.py:27-107 | every outcome is kept in order, and the whole fails exactly when some outcome fails |
| SlideParser.CollectFailedPrefix | extension_packages/figpack_slides/figpack_slides/parse_markdown/parse_markdown.py:27-107 | once some chunk fails, the whole parse fails with that chunk's error |
| SlideParser.ParseMarkdown | extension_packages/figpack_slides/figpack_slides/parse_markdown/parse_markdown.py:22-109 | the whole parse; specified by ParseMarkdownSpec and CollectFailedPrefix |
| SlideParser.ParseMarkdownSpec | extension_packages/figpack_slides/figpack_slides/parse_markdown/parse_markdown.py:22-109 | one slide per "\n---\n" chunk, each read on its own; the parse fails exactly when one of the chunks does |
| SlideParser.ParseSlideLines | extension_packages/figpack_slides/figpack_slides/parse_markdown/parse_markdown.py:29-107 | the line loop of one slide computes the slide the state machine Lines describes |
| SlideParser.ParseLine | extension_packages/figpack_slides/figpack_slides/parse_markdown/parse_markdown.py:48-106 | the body of the line loop is one Step |
| SlideParser.ParseMarkdownToSlides | extension_packages/figpack_slides/figpack_slides/parse_markdown/parse_markdown.py:22-109 | the whole parse computes ParseMarkdown |
| SlideView.LastTitleEditNone | extension_packages/figpack_slides/src/views/Slide/FPSlide.tsx:69-71 | there is no last set_title edit exactly when no edit sets the title |
| SlideView.LastTitleEditWins | extension_packages/figpack_slides/src/views/Slide/FPSlide.tsx:69-71 | the last set_title edit is the one after which no edit sets the title |
| SlideView.EffectiveTitle | extension_packages/figpack_slides/src/views/Slide/FPSlide.tsx:64-81 | the `title` memo; specified by TitleSpec |
| SlideView.TitleSpec | extension_packages/figpack_slides/src/views/Slide/FPSlide.tsx:64-81 | no stored title gives no title; otherwise the stored title keeps its font size, family and color, with the text of the last set_title edit, or unchanged when no edit sets the title |
| SlideView.LastPositionNone | extension_packages/figpack_slides/src/views/Slide/FPSlide.tsx:103-105 | an element has no position update exactly when no edit moves that element's index |
| SlideView.LastPositionWins | extension_packages/figpack_slides/src/views/Slide/FPSlide.tsx:103-105 | the position update used is the last one naming the element's index |
| SlideView.Elements | extension_packages/figpack_slides/src/views/Slide/FPSlide.tsx:88-116 | the `elements` memo; specified by ElementsSpec |
| SlideView.ElementsSpec | extension_packages/figpack_slides/src/views/Slide/FPSlide.tsx:88-116 | the elements keep their number and order; each takes the position of the last update naming its index and is otherwise the stored element |
| SlideView.SlideLayout | extension_packages/figpack_slides/src/views/Slide/FPSlide.tsx:150-164 | content area, header and footer add up to the slide height; view wrapper, title and the 40-pixel padding add up to the content area; a missing or hidden title takes no room and a shown one its font size (32 when absent or zero) plus 20 |
| SpikeAmplitudes.FactorGroupName | extension_packages/figpack_spike_sorting/src/views/view-spike-amplitudes/SpikeAmplitudesDataClient.ts:71 | the subgroup name of a factor; specified by FactorGroupNameInjective |
| SpikeAmplitudes.FactorGroupNameInjective | extension_packages/figpack_spike_sorting/src/views/view-spike-amplitudes/SpikeAmplitudesDataClient.ts:71 | two factors with the same `factor_<f>` group name are the same factor |
| SpikeAmplitudes.DiscoverFactors | extension_packages/figpack_spike_sorting/src/views/view-spike-amplitudes/SpikeAmplitudesDataClient.ts:46-85 | no subsampled_data group gives no factors and an unloadable one fails; otherwise the factors found are 4, 16, 64, ... in order, each listed and loaded, and the next power of 4 is not listed; a failure names a listed factor group that did not load |
| SpikeAmplitudes.NewFactorUnseen | extension_packages/figpack_spike_sorting/src/views/view-spike-amplitudes/SpikeAmplitudesDataClient.ts:69-84 | a power of 4 beyond those found so far has a group name none of them has, so the discovery loop ends |
| SpikeAmplitudes.PowStrictMono | extension_packages/figpack_spike_sorting/src/views/view-spike-amplitudes/SpikeAmplitudesDataClient.ts:83 | multiplying the factor by 4 makes it strictly larger |
| SpikeAmplitudes.ChosenFactor | extension_packages/figpack_spike_sorting/src/views/view-spike-amplitudes/SpikeAmplitudesDataClient.ts:127-133 | the chosen factor is at least 4, and the loop stops: either the next 4x copy is missing or the chosen factor brings the count within the limit |
| SpikeAmplitudes.ChosenFactorExists | extension_packages/figpack_spike_sorting/src/views/view-spike-amplitudes/SpikeAmplitudesDataClient.ts:128-133 | every factor the loop advances to is one whose copy exists |
| SpikeAmplitudes.ChosenFactorPower | extension_packages/figpack_spike_sorting/src/views/view-spike-amplitudes/SpikeAmplitudesDataClient.ts:127-133 | the chosen factor is a power of 4 |
| SpikeAmplitudes.SubsampleUsed | extension_packages/figpack_spike_sorting/src/views/view-spike-amplitudes/SpikeAmplitudesDataClient.ts:127-141 | a subsampled copy is used exactly when the 4x copy exists, or the 16x copy exists and even the 4x copy would show too many events |
| SpikeAmplitudes.SubsampleUsedWithDiscovered | extension_packages/figpack_spike_sorting/src/views/view-spike-amplitudes/SpikeAmplitudesDataClient.ts:69-141 | with the contiguous factors discovery produces, a subsampled copy is used exactly when the 4x copy exists |
| SpikeAmplitudes.ChooseSubsampleFactor | extension_packages/figpack_spike_sorting/src/views/view-spike-amplitudes/SpikeAmplitudesDataClient.ts:127-133 | the loop computes ChosenFactor, with the real quotient test equal to the integer comparison count > maxNumEvents * factor |
| SpikeAmplitudes.Unlimited | extension_packages/figpack_spike_sorting/src/views/view-spike-amplitudes/SpikeAmplitudesDataClient.ts:103-163 | the answer with no event limit: unresolved exactly when a boundary has no reference index, factor 1, empty for an empty range, and the client's own timestamps between the two indices otherwise |
| SpikeAmplitudes.Relabel | extension_packages/figpack_spike_sorting/src/views/view-spike-amplitudes/SpikeAmplitudesDataClient.ts:139 | relabelling keeps the arrays and resolution and sets the factor |
| SpikeAmplitudes.GetDataForRange | extension_packages/figpack_spike_sorting/src/views/view-spike-amplitudes/SpikeAmplitudesDataClient.ts:96-163 | an empty range gives empty arrays with factor 1; within the event limit, the client's own spikes in the range; over the limit, the chosen subsampled copy's unlimited answer relabelled with its factor when that copy exists, else the own spikes |
| TimeFormat.FormatTimeAsWritten | figpack-figure/src/figpack-main-plugin/shared/component-time-scroll-view-3/TimeScrollToolbar.tsx:30-38 | `formatTime` as written; for a time that is not negative it is the clock FormatTime gives, so it reads back as that time (FormatTimeRoundTrip) |
| TimeFormat.TimeLabel | figpack-figure/src/figpack-main-plugin/shared/component-time-scroll-view-3/TimeScrollToolbar.tsx:403 | the toolbar label, `formatTime` as written or the dashes; specified by TimeLabelSpec |
| TimeFormat.TimeLabelSpec | figpack-figure/src/figpack-main-plugin/shared/component-time-scroll-view-3/TimeScrollToolbar.tsx:403 | with no current time the label is "--:--:--.---"; with a current time that is not negative the label reads back as that time |
| TimeFormat.JsRem | figpack-figure/src/figpack-main-plugin/shared/component-time-scroll-view-3/TimeScrollToolbar.tsx:33-35 | the JavaScript remainder by a positive divisor agrees with the mathematical one for a non-negative dividend and lies strictly between -divisor and divisor |
| TimeFormat.FloorDiv | figpack-figure/src/figpack-main-plugin/shared/component-time-scroll-view-3/TimeScrollToolbar.tsx:32-34 | Math.floor of the quotient is the greatest q with q * divisor <= dividend |
| TimeFormat.ClockFieldsSpec | figpack-figure/src/figpack-main-plugin/shared/component-time-scroll-view-3/TimeScrollToolbar.tsx:31-35 | for a time that is not negative the hours are not negative, minutes and seconds lie in 0..59, milliseconds in 0..999, and the four fields add up to the time |
| TimeFormat.NegativeTimeMisread | figpack-figure/src/figpack-main-plugin/shared/component-time-scroll-view-3/TimeScrollToolbar.tsx:30-38 | as written, -1500 ms gives the fields -1, -1, -2, -500, which do not add up to -1500, and prints "-1:-1:-2.-500" |
| TimeFormat.PaddedDigits | figpack-figure/src/figpack-main-plugin/shared/component-time-scroll-view-3/TimeScrollToolbar.tsx:37 | a zero-padded number is all digits and reads back as the number |
| TimeFormat.RenderParses | figpack-figure/src/figpack-main-plugin/shared/component-time-scroll-view-3/TimeScrollToolbar.tsx:37 | the rendered clock of a non-negative time starts with a digit and reads back as that time |
| TimeFormat.FormatTime | figpack-figure/src/figpack-main-plugin/shared/component-time-scroll-view-3/TimeScrollToolbar.tsx:30-38 | the clock as evidently intended, a leading "-" before the clock of the magnitude; specified by FormatTimeRoundTrip, and equal to FormatTimeAsWritten for a time that is not negative |
| TimeFormat.FormatTimeRoundTrip | figpack-figure/src/figpack-main-plugin/shared/component-time-scroll-view-3/TimeScrollToolbar.tsx:30-38 | the clock, with a leading "-" for a negative time, reads back as exactly the time it was made from |
| TrackClient.Window | extension_packages/figpack_franklab/src/TrackAnimation/TrackAnimationClient.ts:125-153 | a dataset read returns no more than the dataset holds, and exactly the elements start up to end when that range lies inside it |
| TrackClient.MaxOf | extension_packages/figpack_franklab/src/TrackAnimation/TrackAnimationClient.ts:162 | the maximum is absent exactly for no values, and otherwise is one of the values and no value exceeds it |
| TrackClient.FrameStart | extension_packages/figpack_franklab/src/TrackAnimation/TrackAnimationClient.ts:134-138 | the cumulative-sum loop gives the total length of the frames before the requested one |
| TrackClient.FramesAdjacent | extension_packages/figpack_franklab/src/TrackAnimation/TrackAnimationClient.ts:134-142 | each frame ends where the next one starts: frameEnd is frameStart plus the frame's length |
| TrackClient.FramesOrdered | extension_packages/figpack_franklab/src/TrackAnimation/TrackAnimationClient.ts:134-142 | frames occupy consecutive ranges that do not overlap: a frame ends no later than any later frame starts |
| TrackClient.LoadField | extension_packages/figpack_franklab/src/TrackAnimation/TrackAnimationClient.ts:124-168 | the reads behind a probability field; specified by LoadFieldSpec |
| TrackClient.LoadFieldSpec | extension_packages/figpack_franklab/src/TrackAnimation/TrackAnimationClient.ts:124-168 | a frame's field is found exactly when the length dataset covers the frame, the frame's length is not zero and both data datasets exist; the data are the locations and values between the frame's start and end, with their maximum |
| TrackClient.InsertKeepsShape | extension_packages/figpack_franklab/src/TrackAnimation/TrackAnimationClient.ts:170-179 | caching a new frame keeps the cache in insertion order with each frame once and at most 50 frames |
| TrackClient.InsertedIsCached | extension_packages/figpack_franklab/src/TrackAnimation/TrackAnimationClient.ts:170-179 | the frame just cached is in the cache with its data |
| TrackClient.EvictsOldest | extension_packages/figpack_franklab/src/TrackAnimation/TrackAnimationClient.ts:173-179 | a full cache evicts the frame cached first and only it; every other frame keeps its data |
| TrackClient.NoEvictionBelowLimit | extension_packages/figpack_franklab/src/TrackAnimation/TrackAnimationClient.ts:170-179 | below 50 frames caching a frame evicts nothing |
| TrackClient.ReadField | extension_packages/figpack_franklab/src/TrackAnimation/TrackAnimationClient.ts:124-168 | the store-reading part computes LoadField |
| TrackClient.TrackAnimationClient.constructor | extension_packages/figpack_franklab/src/TrackAnimation/TrackAnimationClient.ts:4-31 | a new client has an empty frame cache and no bin corners cached |
| TrackClient.TrackAnimationClient.GetProbabilityFieldData | extension_packages/figpack_franklab/src/TrackAnimation/TrackAnimationClient.ts:112-182 | a frame past the recording gives null and changes nothing; a cached frame gives its cached data and changes nothing; otherwise the field is read from the store and, when found, cached with the oldest frame evicted beyond 50 |
| TrackClient.TrackAnimationClient.GetTrackBinCorners | extension_packages/figpack_franklab/src/TrackAnimation/TrackAnimationClient.ts:54-67 | the corners are read once and then served from the cache; a missing dataset caches nothing; the frame cache is untouched |
| TrackClient.TrackAnimationClient.GetPosition | extension_packages/figpack_franklab/src/TrackAnimation/TrackAnimationClient.ts:69-83 | a frame past the recording gives no position |
| TrackClient.TrackAnimationClient.FrameEntry | extension_packages/figpack_franklab/src/TrackAnimation/TrackAnimationClient.ts:85-110 | a frame past the recording gives nothing; a value read is the dataset's entry at that frame |
| TrackClient.TrackAnimationClient.GetHeadDirection | extension_packages/figpack_franklab/src/TrackAnimation/TrackAnimationClient.ts:85-96 | `getHeadDirection`: the frame's entry of the head-direction dataset; specified by FrameEntry |
| TrackClient.TrackAnimationClient.GetTimestamp | extension_packages/figpack_franklab/src/TrackAnimation/TrackAnimationClient.ts:98-110 | `getTimestamp`: the frame's entry of the timestamps dataset; specified by FrameEntry |
| TrackClient.PositionSpec | extension_packages/figpack_franklab/src/TrackAnimation/TrackAnimationClient.ts:69-83 | inside the recording a position is read exactly when both rows cover the frame, and it is the pair of their entries at the frame |
| TrackClient.ReadTwice | extension_packages/figpack_franklab/src/TrackAnimation/TrackAnimationClient.ts:119-122 | reading a frame a second time gives the field the first read found, whatever the store holds by then |
| TrackDrawing.BinIndexToXY | extension_packages/figpack_franklab/src/TrackAnimation/TrackAnimationDrawing.ts:81-85 | the column of a bin lies inside the grid's width |
| TrackDrawing.XyToBinIndex | extension_packages/figpack_franklab/src/TrackAnimation/TrackAnimationDrawing.ts:92-94 | `xyToBinIndex`; specified by BinIndexRoundTrip and XyRoundTrip |
| TrackDrawing.BinIndexRoundTrip | extension_packages/figpack_franklab/src/TrackAnimation/TrackAnimationDrawing.ts:81-94 | numbering a bin's column and row row by row gives the bin back |
| TrackDrawing.XyRoundTrip | extension_packages/figpack_franklab/src/TrackAnimation/TrackAnimationDrawing.ts:81-94 | the column and row of a numbered cell whose column is inside the grid are the cell's own |
| TrackDrawing.BinInGrid | extension_packages/figpack_franklab/src/TrackAnimation/TrackAnimationDrawing.ts:263-265 | every bin the drawing loop visits, 0 <= binIndex < xcount * ycount, lands inside the xcount by ycount grid |
| TrackDrawing.SchemeNamed | extension_packages/figpack_franklab/src/TrackAnimation/TrackAnimationDrawing.ts:217 | the scheme looked up by name, blue-red by default; specified by SchemeNamedSpec |
| TrackDrawing.SchemeNamedSpec | extension_packages/figpack_franklab/src/TrackAnimation/TrackAnimationDrawing.ts:213-219 | each of the five schemes is found by its own name and every other name falls back to blue-red |
| TrackDrawing.Round | extension_packages/figpack_franklab/src/TrackAnimation/TrackAnimationDrawing.ts:138-140 | Math.round gives the integer nearest to its argument, halves rounding up |
| TrackDrawing.RoundChannel | extension_packages/figpack_franklab/src/TrackAnimation/TrackAnimationDrawing.ts:138-140 | rounding a value in 0..255 gives a channel value |
| TrackDrawing.LerpChannel | extension_packages/figpack_franklab/src/TrackAnimation/TrackAnimationDrawing.ts:153-170 | moving a fraction t in [0, 1] of the way between two channel values gives a channel value |
| TrackDrawing.ViridisColor | extension_packages/figpack_franklab/src/TrackAnimation/TrackAnimationDrawing.ts:144-172 | viridis maps every value in [0, 1] to a colour with all three channels in 0..255 |
| TrackDrawing.HotColor | extension_packages/figpack_franklab/src/TrackAnimation/TrackAnimationDrawing.ts:174-194 | hot maps every value in [0, 1] to a colour with all three channels in 0..255 |
| TrackDrawing.ColorOf | extension_packages/figpack_franklab/src/TrackAnimation/TrackAnimationDrawing.ts:135-204 | the five colour schemes; specified by ViridisColor, HotColor, BlueRedEnds and ColorsInRange |
| TrackDrawing.ValueToColor | extension_packages/figpack_franklab/src/TrackAnimation/TrackAnimationDrawing.ts:213-219 | `valueToColor`; specified by ColorsInRange |
| TrackDrawing.ColorsInRange | extension_packages/figpack_franklab/src/TrackAnimation/TrackAnimationDrawing.ts:135-219 | every scheme, chosen by any name, maps a normalised value in [0, 1] to a colour whose three channels lie in 0..255 |
| TrackDrawing.BlueRedEnds | extension_packages/figpack_franklab/src/TrackAnimation/TrackAnimationDrawing.ts:136-142 | in the default scheme 0 is pure blue and 1 is pure red |
| UploadBundle.ScanChunkChars | figpack/core/_upload_bundle.py:360-362 | the scan accepts exactly when every character from the given position on is a digit or '.' |
| UploadBundle.IsZarrChunk | figpack/core/_upload_bundle.py:356-367 | a name is a chunk key exactly when it is non-empty, holds only digits and '.', and neither starts nor ends with '.' |
| UploadBundle.DetermineFileType | figpack/core/_upload_bundle.py:309-353 | a file is uploaded as small exactly when its path is index.html or ends in .zattrs, .zgroup, .zarray, .zmetadata or .html; every other file is large |
| UploadBundle.SuffixOfSuffix | figpack/core/_upload_bundle.py:337-344 | a metadata suffix of the part after "data.zarr/" is a metadata suffix of the whole path, so the nested check adds no small file |
| UploadBundle.ChunkEndsInDigit | figpack/core/_upload_bundle.py:363-367 | a path ending in a chunk key never ends in a suffix whose last character is a letter |
| UploadBundle.DataZarrChunksAreLarge | figpack/core/_upload_bundle.py:331-336 | chunk files under data.zarr/ are always uploaded as large files |
| UploadBundle.FileExtension | figpack/core/_upload_bundle.py:459-460 | the extension is the text after the last '.' of the last '/' segment, or "" when that segment has no dot; it holds neither '/' nor '.' |
| UploadBundle.ContentTypeFor | figpack/core/_upload_bundle.py:462-474 | the type is application/octet-stream exactly when the extension is not in the table, and the zarr metadata extensions and json map to application/json |
| UploadBundle.DetermineContentType | figpack/core/_upload_bundle.py:455-474 | a path gets application/octet-stream exactly when its extension is not in the table |
| UploadBundle.NoDotIsOctetStream | figpack/core/_upload_bundle.py:459-474 | a name whose last segment has no dot is sent as application/octet-stream |
| UploadBundle.ExtensionOf | figpack/core/_upload_bundle.py:459-474 | a single-segment name stem.ext has extension ext and gets that extension's content type |
| UploadHandler.ScanChunkChars | figpack-api-cf/src/handlers/uploadHandler.ts:9-14 | the scan accepts exactly when every character from the given position on is '.' or an ASCII digit |
| UploadHandler.SameChunkRule | figpack-api-cf/src/handlers/uploadHandler.ts:7-16 | the server's chunk test gives the same answer as the uploader's for every name |
| UploadHandler.ValidateFilePath | figpack-api-cf/src/handlers/uploadHandler.ts:18-71 | index.html, manifest.json, extension_manifest.json, annotations.json and every .html path are valid; any valid path is one of those or lies under extension-, data.zarr/ or assets/ |
| UploadHandler.DataZarrRule | figpack-api-cf/src/handlers/uploadHandler.ts:43-61 | under data.zarr/, a non-HTML path is valid exactly when its base name is a chunk key, a zarr metadata name or _consolidated_<digits>.dat |
| UploadHandler.AssetsRule | figpack-api-cf/src/handlers/uploadHandler.ts:28-70 | under assets/, a non-HTML path is valid exactly when it is a .js or .css file or the neurosift-logo png |
| UploadHandler.ConsolidatedNameValid | figpack-api-cf/src/handlers/uploadHandler.ts:54-58 | every name the consolidator writes has the _consolidated_<digits>.dat shape and no '/' |
| UploadHandler.ConsolidatedFilesAccepted | figpack-api-cf/src/handlers/uploadHandler.ts:43-61 | every consolidated file the uploader writes is accepted under data.zarr/ |
| UploadHandler.StripIndexHtml | figpack-api-cf/src/handlers/uploadHandler.ts:260 | a trailing "/index.html" is removed and nothing else; a URL without it is kept |
| UploadHandler.CheckFile | figpack-api-cf/src/handlers/uploadHandler.ts:221-276 | an invalid path is rejected first, then a size that is not a positive number, then a size over 1 GiB (exactly when the path is valid and the size a number above 1 GiB), then a destination that does not start with the bucket base URL and "/"; a file is accepted exactly when it passes all four checks, and its key, after the bucket base URL and "/", gives the destination URL |
| UploadHandler.SignFiles | figpack-api-cf/src/handlers/uploadHandler.ts:221-297 | with no rejection there is one key per file, in order, each the accepted check of that file; otherwise the batch stops at the first rejected file, all earlier files having been accepted |
| VerticalLayout.Layout | figpack-figure/src/figpack-main-plugin/views/FPVerticalLayout.tsx:51-70 | there is one position per item |
| VerticalLayout.LayoutOffsets | figpack-figure/src/figpack-main-plugin/views/FPVerticalLayout.tsx:51-70 | item i is placed at the total height of the items before it, with its own height and title height |
| VerticalLayout.LayoutSpec | figpack-figure/src/figpack-main-plugin/views/FPVerticalLayout.tsx:51-70 | item i starts at the total height of the items before it and is as tall as its height plus a 30-pixel title bar when titles are shown and it has a title; the items are stacked without gaps and the last ends at the total height |
| VerticalLayout.ItemPositions | figpack-figure/src/figpack-main-plugin/views/FPVerticalLayout.tsx:51-70 | the loop returns the layout's positions and total height |
| VerticalLayout.StackedMonotone | figpack-figure/src/figpack-main-plugin/views/FPVerticalLayout.tsx:51-70 | with heights not negative, an earlier item ends at or before a later item starts |
| VerticalLayout.ScrollViewHeight | figpack-figure/src/figpack-main-plugin/views/FPVerticalLayout.tsx:47-48 | the scrolled window's height; specified by ScrollViewHeightSpec |
| VerticalLayout.ScrollViewHeightSpec | figpack-figure/src/figpack-main-plugin/views/FPVerticalLayout.tsx:47-48 | an absent or empty title leaves the whole height to the scrolled window; a non-empty title takes the 30-pixel title bar off it |
| VerticalLayout.Visible | figpack-figure/src/figpack-main-plugin/views/FPVerticalLayout.tsx:78-92 | the visibility test; specified by VisibleContiguous and VisibleOnceSpec |
| VerticalLayout.VisibleContiguous | figpack-figure/src/figpack-main-plugin/views/FPVerticalLayout.tsx:78-92 | the items visible in the window form a contiguous run |
| VerticalLayout.VisibleOnce | figpack-figure/src/figpack-main-plugin/views/FPVerticalLayout.tsx:94-99 | the "visible once" set; specified by VisibleOnceSpec and VisibleOnceGrows |
| VerticalLayout.VisibleOnceSpec | figpack-figure/src/figpack-main-plugin/views/FPVerticalLayout.tsx:94-99 | an item is in the "visible once" set exactly when it was visible at one of the scroll positions seen |
| VerticalLayout.VisibleOnceGrows | figpack-figure/src/figpack-main-plugin/views/FPVerticalLayout.tsx:94-99 | the "visible once" set only grows as the window moves |
| WheelIndex.BaseName | scripts/generate-wheel-index.py:20 | a trailing ".whl" is removed and nothing else; a name without it is kept |
| WheelIndex.DigitPartFrom | scripts/generate-wheel-index.py:45-48 | the index found is the first part from the start position on that begins with a digit, or none when no such part exists |
| WheelIndex.VersionStart | scripts/generate-wheel-index.py:44-48 | with at least two name/version parts the version starts at an index from 1 to the last part |
| WheelIndex.VersionStartSpec | scripts/generate-wheel-index.py:40-48 | the version starts at the first part after index 0 that begins with a digit; when no part does, it starts at index 1 |
| WheelIndex.ParseWheelFileName | scripts/generate-wheel-index.py:13-60 | `parse_wheel_filename`; specified by NoDashFallback, TwoPartFallback, PartsFields and ManyPartsRebuild |
| WheelIndex.NoDashFallback | scripts/generate-wheel-index.py:25-33 | a name without '-' is all name, with version and the three tags "unknown" |
| WheelIndex.TwoPartFallback | scripts/generate-wheel-index.py:25-33 | "name-version.whl" gives that name and version, with the three tags "unknown" |
| WheelIndex.PartsFields | scripts/generate-wheel-index.py:35-51 | with five or more parts the last three are the tags and name and version are the parts before and after the version start |
| WheelIndex.ManyPartsRebuild | scripts/generate-wheel-index.py:35-59 | with five or more parts the last three parts are the python, abi and platform tags, and name, version and tags joined by '-' give back the name without ".whl" |
| WheelIndex.StrLessTotal | scripts/generate-wheel-index.py:71 | of two different strings one comes first in Python's order |
| WheelIndex.StrLessIrreflexive | scripts/generate-wheel-index.py:71 | no string comes before itself |
| WheelIndex.KeyLeTotal | scripts/generate-wheel-index.py:71 | any two entries are ordered one way or the other by (name, version) |
| WheelIndex.InsertPerm | scripts/generate-wheel-index.py:71 | inserting an entry adds exactly that entry |
| WheelIndex.InsertSorted | scripts/generate-wheel-index.py:71 | inserting into a sorted listing keeps it sorted by (name, version) |
| WheelIndex.SortWheelsSorted | scripts/generate-wheel-index.py:71 | the listing is ordered by name, then version |
| WheelIndex.SortWheelsPerm | scripts/generate-wheel-index.py:71 | the listing holds exactly the same entries as the directory, as a multiset |
| WheelIndex.StrLessTrans | scripts/generate-wheel-index.py:71 | Python's string order is transitive |
| WheelIndex.KeyLeTrans | scripts/generate-wheel-index.py:71 | the (name, version) order is transitive |
| WheelIndex.InsertStable | scripts/generate-wheel-index.py:71 | inserting an entry into a sorted listing puts it after every entry with the same key |
| WheelIndex.SortWheelsStable | scripts/generate-wheel-index.py:71 | the sort is stable, as Python's is: the entries with one (name, version) key come out in their listing order |
| WheelIndex.SortWheels | scripts/generate-wheel-index.py:71 | `wheels.sort` by (name, version); specified by SortWheelsSorted, SortWheelsPerm and SortWheelsStable |
| WheelIndex.Entries | scripts/generate-wheel-index.py:62-70 | one entry per wheel file, in listing order, each with the information parsed from its name |
| WheelIndex.WheelInfos | scripts/generate-wheel-index.py:62-73 | the listing holds, as a multiset, one entry per wheel file with the information parsed from its name; it is sorted by (name, version), and wheels with the same name and version keep their directory order |
| ZarrConsolidate.ChunkFiles | figpack/core/_zarr_consolidate.py:97-107 | the chunk files are no more than the walked files |
| ZarrConsolidate.ChunkFilesMembers | figpack/core/_zarr_consolidate.py:95-107 | a walked file is collected exactly when it is neither a metadata file nor a _consolidated_ file |
| ZarrConsolidate.CollectChunkFiles | figpack/core/_zarr_consolidate.py:84-109 | the walk loop collects the chunk files ChunkFiles describes, in walk order |
| ZarrConsolidate.ConsolidatedName | figpack/core/_zarr_consolidate.py:42 | the name of a consolidated file; specified by ConsolidatedNotCollected and UploadHandler.ConsolidatedNameValid |
| ZarrConsolidate.ConsolidatedNotCollected | figpack/core/_zarr_consolidate.py:42-100 | a consolidated file the packer writes is never collected as a chunk again |
| ZarrConsolidate.Sized | figpack/core/_zarr_consolidate.py:128-135 | the sized entries are exactly the files whose size could be read, with that size |
| ZarrConsolidate.PackingOrderSpec | figpack/core/_zarr_consolidate.py:128-138 | the packing order holds exactly the files whose size was read, largest first, and files of equal size keep their listing order (the sort is stable) |
| Common.SortDescStable | figpack/core/_zarr_consolidate.py:138 | sorting largest first with `reverse=True` is stable: the elements sharing a key come out in their input order |
| ZarrConsolidate.FirstFitFrom | figpack/core/_zarr_consolidate.py:152-159 | the index found is the lowest at or after the start whose group has room for the file, or the number of groups when none has room |
| ZarrConsolidate.Pack | figpack/core/_zarr_consolidate.py:141-165 | the packing keeps one running size per group |
| ZarrConsolidate.ReadSizes | figpack/core/_zarr_consolidate.py:128-135 | the size-reading loop skips the files whose stat fails and keeps the others in order |
| ZarrConsolidate.PlaceFile | figpack/core/_zarr_consolidate.py:144-163 | one iteration: a file larger than the limit gets its own group, otherwise it joins the lowest-index group with room, else opens a new group, and that group's size grows by the file's size |
| ZarrConsolidate.GroupFilesBySize | figpack/core/_zarr_consolidate.py:112-165 | the groups are the first-fit packing of the sized files sorted largest first |
| ZarrConsolidate.Place | figpack/core/_zarr_consolidate.py:144-163 | where one file goes; specified by PlaceKeeps and PlaceContents |
| ZarrConsolidate.PlaceKeeps | figpack/core/_zarr_consolidate.py:144-163 | placing one file keeps every group non-empty, every size equal to its group's total, and every group within the limit unless it is a single oversized file |
| ZarrConsolidate.PackConsistent | figpack/core/_zarr_consolidate.py:141-165 | group_sizes[i] is always the total of groups[i], and no group exceeds max_size unless it holds a single file |
| ZarrConsolidate.PlaceContents | figpack/core/_zarr_consolidate.py:144-163 | placing a file adds exactly that file to the groups |
| ZarrConsolidate.PackContents | figpack/core/_zarr_consolidate.py:141-165 | every packed entry lands in exactly one group: the groups hold exactly the input, as a multiset |
| ZarrConsolidate.GroupingCorrect | figpack/core/_zarr_consolidate.py:112-165 | the groups hold exactly the files whose size could be read, each once, with consistent totals and within the size limit |
| ZarrConsolidate.OffsetsContiguous | figpack/core/_zarr_consolidate.py:46-64 | within a consolidated file the first offset is 0, each offset is the previous offset plus the previous length, and every file ends within the group's total |
| ZarrConsolidate.OffsetBound | figpack/core/_zarr_consolidate.py:46-64 | every offset lies within the group's total |
| ZarrConsolidate.BuildRefs | figpack/core/_zarr_consolidate.py:40-64 | the loop over groups and files writes the refs map RefsOf describes |
| ZarrConsolidate.GroupRefsHit | figpack/core/_zarr_consolidate.py:48-64 | within one group every file finds its own ref: its consolidated file, offset and length |
| ZarrConsolidate.GroupRefsMiss | figpack/core/_zarr_consolidate.py:48-64 | writing a group's refs leaves the refs of paths outside the group alone |
| ZarrConsolidate.GroupRefsOrigin | figpack/core/_zarr_consolidate.py:48-64 | every ref a group writes is for a file of that group |
| ZarrConsolidate.RefsOf | figpack/core/_zarr_consolidate.py:40-64 | the refs map of the first groups; specified by RefsOfHit, RefsOfKeep and RefsOfOrigin |
| ZarrConsolidate.RefsOfHit | figpack/core/_zarr_consolidate.py:40-64 | every packed file has a ref naming its group's _consolidated_<i>.dat file, its offset in that file and its length |
| ZarrConsolidate.RefsOfKeep | figpack/core/_zarr_consolidate.py:40-64 | writing a later group leaves the refs of earlier groups' files alone |
| ZarrConsolidate.RefsOfOrigin | figpack/core/_zarr_consolidate.py:40-64 | every ref belongs to a packed file |
| ZarrConsolidate.ConsolidationPlan | figpack/core/_zarr_consolidate.py:28-37 | nothing is packed exactly when there are no chunk files; otherwise the groups are the first-fit packing of the collected chunks with their sizes |
| ZarrConsolidate.ChunkSizes | figpack/core/_zarr_consolidate.py:128-132 | one entry per collected chunk, with the size stat reports for it |

## Left out

- Floating point. Times, rates and sizes are exact reals or whole numbers. `Math.round` of seconds to milliseconds, float rounding in `factor < N/1000` (compared as `factor * 1000 < N`) and pixel sizes are not modelled.
- String encodings. Lengths are counted in characters; JavaScript's UTF-16 code units and Python's code points are not distinguished. Digit tests (`isdigit`, `\d`) accept ASCII '0'..'9' only.
- Python dict and JavaScript object key order. Where the source iterates `Object.entries(...)` of a map, the order is a parameter that lists each key once.
- I/O in every handler and client is not modelled: the database, S3 and signed-URL generation, `fetch`, the clock, random ids, and the API-key lookup (`validateApiKey`). Their outcomes are parameters, and the request/authentication flow around the modelled rules is not reproduced.
- Rate-limit headers, the storage client cache of the cloud API, and retries are not modelled.
- The file I/O of the slides live-edit server is not modelled: reading the file, the lock, and the atomic rewrite. `create_slide` and `embed_images_as_base64` are not part of this model either.
- YAML parsing is a parameter. It answers a dictionary, something that is not a dictionary (skipped as the source skips it), or an error (passed on to the caller as the source's exception is).
- Regular-expression matching of markdown image links in documents is a parameter: the captured URLs, in match order.
- The SQL `LIKE` listing of documents is not modelled.
- The removal of the original chunk files after consolidation (`figpack/core/_zarr_consolidate.py:74-78`) is not modelled. It unlinks every collected chunk, including one skipped because `stat` failed on it; such a chunk is removed and has no ref in `.zmetadata`.
- Upload threading, the deletion of uploaded files, and `_remove_empty_directories` are not modelled: concurrency and file-system effects.
- Globbing the wheel directory and writing the index page are not modelled.
- The browser message channel of the iframe upload is not modelled: messages are method calls, and posted messages are recorded in a list.
- React rendering, canvas drawing and mouse handlers are not modelled. `handleElementPositionUpdate` only forwards an event to the parent, so it has nothing to state.
- The "rgb(r, g, b)" string a colour scheme returns is kept as its three channels. Colour-scheme names that are `Object.prototype` properties (such as "toString") are not modelled, so they fall back to blue-red here.
- `annotationItemsAreEqual` compares by value. The reference-identity shortcut gives the same answer for equal maps and is not modelled separately.
- Fragment-count registration in the markdown view (`registerNumFragments`) is a callback to the host and is not modelled.
- TrackClient.LoadField: for a frame past the end of the length dataset, `frameLengths[frame]` is undefined and the slice requested is NaN. What the zarr reader returns for a NaN slice is not part of this model. The model answers `InvalidSlice` there, and LoadFieldSpec states exactly when that happens.
- The track-animation client's other dataset attributes are plain reads and are not modelled. The same goes for a frame index below zero, which the TypeScript types allow but no caller passes.
- The sub-client objects of the spike-amplitudes client are not modelled: a sub-client is the dataset it reads, queried without further subsampling.
- `updateFigureJson` and the figure-JSON manager are not modelled: network and storage writes.
- SeriesLoading.LoadDownsampled: requires a positive downsampling factor. A factor of 0 would give Infinity arithmetic in JavaScript, and a pyramid never offers it.
- ZarrConsolidate.BuildRefs: takes each chunk's length from the size `stat` reported, not from `len(chunk_data)`. The two agree unless a file changes between the two reads.
- The renewal endpoint's response messages are an enumeration. Their texts are given by `FigureRenewal.MessageText`.

## Findings

| source | as written | input that shows it | evidently intended | confidence | as-written member | corrected member |
|---|---|---|---|---|---|---|
| figpack-figure/src/figpack-main-plugin/shared/component-time-scroll-view-3/TimeScrollToolbar.tsx:30-38 | `formatTime` floors each quotient with `Math.floor` and takes JavaScript's truncating `%`, so every field of a negative time is negative: the hours are -1 through the floor, the other fields through `%` | a current time of -1.5 s (-1500 ms) prints "-1:-1:-2.-500" | a single leading "-" before the clock of the magnitude, "-00:00:01.500" | not executed; negative times occur when the view's start time is negative | TimeFormat.NegativeTimeMisread | TimeFormat.FormatTimeRoundTrip |
| figpack-api-old/lib/adminAuth.ts:306-332 | `typeof null === 'object'`, so `validateUserData(null)` goes on to read `null.email`, and `validateAdminData(null)` reads `null.users` | `null`, or admin data whose users list holds `null` | the validators answer false | not executed | AdminAuth.NullThrows | AdminAuth.AdminDataUsers |
