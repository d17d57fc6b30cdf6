# HQ sales-workspace core, modelled in Dafny

HQ is a small sales and partner workspace. Contributors log activities about contacts and projects, upload resources and contact photos, and raise tasks. A reviewer with the viewer role reads a feed of product mentions, ranked by urgency, and answers tasks. This project models the deterministic core of that system and proves properties of the model:

- **Product-mention detection.** Each catalog name is searched as a whole, case-insensitive word. Every match yields a mention with a context window.
- **The review feed.** This covers the keyword urgency classifier and the feed rows built from stored mentions.
- **The route handlers' decision logic.** Each handler is modelled as an ordered guard chain plus the rows it would store, over in-memory tables:
  - activity creation with best-effort mention records;
  - mention insert-if-absent;
  - the task status filter;
  - task responses with the ownership rule;
  - resource query conditions and tag filtering;
  - resource and photo uploads.
- **Client-side logic:**
  - the `@`/`#` content tokenizer;
  - contact-form validation;
  - contact and activity filters with their counts;
  - time-ago bucketing;
  - Kanban grouping and drop decisions;
  - progress gradients;
  - resource-card icons and tags.
- **Small component state machines, as classes:**
  - the inline editor;
  - the quick activity composer with its stored draft;
  - the contact view with optimistic updates and revert;
  - the new-contact form;
  - the task response modal;
  - the photo picker;
  - the project card's progress;
  - the resource download button.

Each source file has one module with the same purpose. Seven modules are shared between files. Four of them are generic helpers:

- `Wrappers` holds optional values.
- `Strings` holds ASCII text primitives: case mapping, `trim`, `indexOf`/`includes`, `split`/`join`.
- `Seqs` holds `filter`, distinct elements and subsequences.
- `Auth` holds the session as an optional (id, role) pair, and JavaScript truthiness.

The other three are domain modules:

- `Uploads` holds the upload rejections and the stored-name and extension rule, shared by the resource upload route, the contact photo upload route and the photo picker.
- `Contacts` holds the contact record and the merge of a partial update, shared by the contacts list and the contacts view.
- `Numbers` holds the decimal rendering of numbers, shared by the activity page and the resource card.

The model stands in for inputs it cannot compute:

- **Sessions, stored tables, the product catalog and the response-status configuration** are parameters.
- **Awaited outcomes** are parameters too. This covers a parent callback that throws, a request that fails, and the preview the file reader produces.
- **The MD5 digest** of an uploaded file is an opaque string parameter.
- **`JSON.parse` of the tags field** is a parameter holding the parsed value, or nothing when parsing throws.
- **Elapsed time** is a number of milliseconds.
- **The mentions listing limit** is a natural number.

## Model

| member | source | states |
|---|---|---|
| ProductMentions.MatchStarts | lib/utils/productMentions.ts:13-14 | the global scan reports strictly increasing positions, each far enough from the end for the name to fit |
| ProductMentions.MatchStartsSound | lib/utils/productMentions.ts:13-14 | every position the global scan reports is a case-insensitive match bounded by word boundaries on both sides |
| ProductMentions.MatchStartsEmptyIff | lib/utils/productMentions.ts:14-16 | the scan finds nothing exactly when the expression matches nowhere at or after the start |
| ProductMentions.MentionOf | lib/utils/productMentions.ts:24-28 | the record carries the key and the matched text; the context is left out exactly when it equals the matched text |
| ProductMentions.DetectProductMentions | lib/utils/productMentions.ts:4-34 | the two nested loops produce exactly the entries' mentions, entry after entry in catalog order |
| ProductMentions.PushEntryMentions | lib/utils/productMentions.ts:16-30 | the inner loop appends exactly the entry's mentions, one per match, to what was already collected |
| ProductMentions.DetectAppend | lib/utils/productMentions.ts:9-31 | catalog order is kept: detecting over two catalog parts gives the first part's mentions, then the second's |
| ProductMentions.DetectSnoc | lib/utils/productMentions.ts:9-31 | one more catalog entry adds its own mentions at the end |
| ProductMentions.DetectSound | lib/utils/productMentions.ts:9-31 | every mention names a catalog key, and its matched text occurs in the input and equals that entry's name up to case |
| ProductMentions.DetectEmptyIff | lib/utils/productMentions.ts:9-33 | no mentions exactly when no catalog entry's expression matches |
| ProductMentions.WholeWordsFromSpec | lib/utils/productMentions.ts:12-13 | the reference list of whole-word occurrences holds exactly the case-insensitive occurrences with no word character on either side, in increasing order |
| ProductMentions.MatchAtWholeWord | lib/utils/productMentions.ts:12-13 | for a name made of word characters the expression matches exactly at the whole-word occurrences |
| ProductMentions.NoOverlap | lib/utils/productMentions.ts:13-14 | two matches of such a name never overlap |
| ProductMentions.MatchStartsAreWholeWords | lib/utils/productMentions.ts:13-14 | for such a name the global scan visits exactly the whole-word occurrences, in order |
| ProductMentions.ProductMentionsCount | lib/utils/productMentions.ts:16-17 | an entry contributes one mention per match |
| ProductMentions.ProductMentionsShape | lib/utils/productMentions.ts:16-29 | the k-th mention of an entry carries its key and the text of the k-th match in the input's casing, and every one carries the same context window, left out when it equals the matched text |
| ProductMentions.MentionAtWholeWord | lib/utils/productMentions.ts:12-28 | the k-th mention of a plain name is the k-th whole-word occurrence, in the input's casing |
| ProductMentions.ProductMentionsAtWholeWords | lib/utils/productMentions.ts:12-28 | for a plain name the mentions correspond one to one, in order, to the whole-word occurrences |
| ProductMentions.GluedNameIsNoMention | lib/utils/productMentions.ts:12-13 | a name glued to a word character, as in "Echoing", is not mentioned |
| ProductMentions.ContextWindow | lib/utils/productMentions.ts:19-22 | when the name occurs, the window spans 20 characters before and after the first occurrence, clamped to the text, and is trimmed |
| ProductMentions.ContextWindowOfMatchedEntry | lib/utils/productMentions.ts:16-28 | when an entry matches, its name occurs at or before the first match, and each mention's context is the window, left out when equal to the matched text |
| ProductMentions.EchoMatches | lib/utils/productMentions.ts:13-14 | in "Echoes and Echo" the expression for "Echo" matches only the final word |
| ProductMentions.ContextFollowsFirstPlainOccurrence | lib/utils/productMentions.ts:19-28 | the window follows the first plain occurrence even when that one is not a whole word: "Echoes and Echo" yields one mention of "Echo" whose context is the whole text |
| ProductMentions.EchoContext | lib/utils/productMentions.ts:19-22 | the first plain occurrence of "echo" in "Echoes and Echo" is at 0, and the window around it is the whole text |
| RecentActivity.SomeWordIn | app/api/carms-corner/recent-activity/route.ts:118-127 | true exactly when some keyword of the list is a substring of the content or of the context |
| RecentActivity.GetUrgencyLevel | app/api/carms-corner/recent-activity/route.ts:95-132 | high exactly when a high-priority keyword occurs in the lower-cased content or context; medium exactly when none does and a medium-priority one does; low otherwise |
| RecentActivity.HighIff | app/api/carms-corner/recent-activity/route.ts:105-122 | high if and only if one of the fifteen high-priority keywords occurs in the lower-cased content or context |
| RecentActivity.MediumIff | app/api/carms-corner/recent-activity/route.ts:112-129 | medium if and only if no high-priority keyword occurs and one of the nine medium-priority keywords does |
| RecentActivity.MissingContextIsEmpty | app/api/carms-corner/recent-activity/route.ts:102 | a missing context classifies exactly like an empty one |
| RecentActivity.UrgencyMonotone | app/api/carms-corner/recent-activity/route.ts:117-131 | appending text to the content never lowers the urgency tier |
| RecentActivity.DownloadIsHigh | app/api/carms-corner/recent-activity/route.ts:105-122 | matching is by plain substring: "download" is high because it contains "down" |
| RecentActivity.NeededIsMedium | app/api/carms-corner/recent-activity/route.ts:112-129 | "needed" holds no high-priority keyword and contains "need", so it is medium |
| RecentActivity.ToFeedRow | app/api/carms-corner/recent-activity/route.ts:64-82 | the row copies the mention's fields, carries its urgency, has a task exactly when the activity has one, and reports the first task's status, an empty status as null |
| RecentActivity.GetRecentActivity | app/api/carms-corner/recent-activity/route.ts:6-84 | 401 exactly without a signed-in user, 403 exactly for a non-viewer; otherwise at most ten rows, the k-th being the row of the k-th newest mention |
| ActivitiesRoute.PostRejection | app/api/activities/route.ts:72-88 | 401 exactly when nobody is signed in, 403 exactly for a signed-in non-contributor, 400 exactly for a contributor whose content is missing, empty or blank; no rejection otherwise |
| ActivitiesRoute.NewActivity | app/api/activities/route.ts:84-99 | the stored activity carries the trimmed content, the type defaulting to GENERAL, the session user, and null for each missing contact, project or metadata |
| ActivitiesRoute.WrittenInOrder | app/api/activities/route.ts:139-159 | with any set of inserts rejecting, the stored mention rows keep the order of the rows |
| ActivitiesRoute.WrittenKeeps | app/api/activities/route.ts:139-159 | every insert that does not reject still stores its row, whichever others reject |
| ActivitiesRoute.WrittenOnly | app/api/activities/route.ts:139-159 | every stored mention row is the row of an insert that did not reject |
| ActivitiesRoute.WrittenAll | app/api/activities/route.ts:139-159 | when no insert rejects, every mention row is stored |
| ActivitiesRoute.WrittenSnoc | app/api/activities/route.ts:139-159 | one more row is stored after the others exactly when its own insert does not reject |
| ActivitiesRoute.WrittenPrefix | app/api/activities/route.ts:139-159 | after one more insert of the rows in order, its row is stored at the end exactly when that insert does not reject |
| ActivitiesRoute.ActivityStore.constructor | app/api/activities/route.ts:91 | both tables start empty |
| ActivitiesRoute.ActivityStore.Post | app/api/activities/route.ts:70-161 | a rejected request changes nothing and answers the rejection status; an accepted one appends the activity, appends the mention rows, for the mentions detected in the trimmed content, whose inserts do not reject, and answers 201 whichever inserts reject |
| ActivitiesRoute.ActivityStore.CreateMentions | app/api/activities/route.ts:139-159 | whichever inserts reject, every other mention row is stored, in row order; the activity table is unchanged |
| ActivitiesRoute.RecordsSound | app/api/activities/route.ts:140-151 | every written mention row belongs to the new activity, names a catalog key, and carries a piece of the content equal to that entry's name up to case |
| ActivitiesRoute.NoMentionWithoutMatch | app/api/activities/route.ts:140-141 | when every catalog name is a plain word and none occurs as a whole word anywhere in the content, no mention rows are written |
| MentionsRoute.InsertIfAbsent | app/api/carms-corner/mentions/route.ts:91-110 | the table is unchanged when a row with the same activity, product and mention text exists; otherwise one row is appended, its context null when absent or empty |
| MentionsRoute.MentionTable.constructor | app/api/carms-corner/mentions/route.ts:104 | the table starts empty |
| MentionsRoute.MentionTable.FindFirst | app/api/carms-corner/mentions/route.ts:92-98 | -1 exactly when no row has the key; otherwise the position of the earliest row with it |
| MentionsRoute.MentionTable.Post | app/api/carms-corner/mentions/route.ts:65-126 | 401 without a signed-in user id, 400 unless activity id, product and mention text are all non-empty, 404 for an unknown activity, each leaving the table unchanged; then the existing row with the key, or a new row created with 201 |
| MentionsRoute.InsertIdempotent | app/api/carms-corner/mentions/route.ts:91-110 | posting the same key a second time changes nothing, whatever its context |
| MentionsRoute.InsertKeyCount | app/api/carms-corner/mentions/route.ts:91-110 | after a post, a key held by no row is held by exactly one, and a held key keeps its count |
| MentionsRoute.FirstContextWins | app/api/carms-corner/mentions/route.ts:91-110 | two identical posts leave one row for the key, carrying the first post's context |
| MentionsRoute.Get | app/api/carms-corner/mentions/route.ts:7-57 | 401 without a signed-in user id; otherwise at most `limit` rows (50 by default), newest first, all of the given product when a non-empty one is given |
| MentionsRoute.GetAllNewestFirst | app/api/carms-corner/mentions/route.ts:16-55 | without a product and with a table no larger than 50, every row is listed, newest first |
| TasksRoute.FilterByStatus | app/api/carms-corner/tasks/route.ts:67-76 | without a status every task is kept in order; with one, the result is a subsequence holding exactly the tasks the status test keeps |
| TasksRoute.NoStatusKeepsAll | app/api/carms-corner/tasks/route.ts:68 | a missing or empty status filters nothing |
| TasksRoute.PendingFilter | app/api/carms-corner/tasks/route.ts:70-73 | with PENDING a task survives exactly when it has no response or a pending one |
| TasksRoute.OtherStatusFilter | app/api/carms-corner/tasks/route.ts:74 | with any other status a task survives exactly when one of its responses has that status, so a task without responses is dropped |
| TasksRoute.GetTasks | app/api/carms-corner/tasks/route.ts:8-78 | 401 without a signed-in user id; otherwise the tasks of the given product (all when none is given), in the order fetched, filtered by status |
| TasksRoute.PostRejection | app/api/carms-corner/tasks/route.ts:86-105 | 401 without a signed-in user id, 403 for a non-contributor, 400 unless title, description and product are all non-empty; accepted exactly when all pass |
| TasksRoute.NewTask | app/api/carms-corner/tasks/route.ts:107-116 | the task keeps title, description and product, belongs to the session user, has priority MEDIUM unless one is given, null due date and activity unless given, and no responses |
| TasksRoute.PostTask | app/api/carms-corner/tasks/route.ts:86-146 | a post is rejected exactly when the guard chain yields a rejection, and then answers that status (400, 401 or 403); a created task is the one built from the body for the signed-in contributor, owned by that user and with no responses |
| TasksRoute.NewTaskIsPending | app/api/carms-corner/tasks/route.ts:70-116 | a freshly created task is listed under the PENDING filter |
| ResponsesRoute.PostRejection | app/api/carms-corner/responses/route.ts:58-90 | 401 without a signed-in user id, 400 unless task id and status are both non-empty, 404 for an unknown task, 403 for a contributor answering someone else's task; accepted exactly when all pass |
| ResponsesRoute.NewResponse | app/api/carms-corner/responses/route.ts:92-99 | the response carries the task, the status and the session user; empty or missing content and notes become null |
| ResponsesRoute.AfterPost | app/api/carms-corner/responses/route.ts:58-122 | a rejected post leaves the table unchanged; an accepted one appends exactly the new response |
| ResponsesRoute.ResponseTable.constructor | app/api/carms-corner/responses/route.ts:92 | the table starts empty |
| ResponsesRoute.ResponseTable.Post | app/api/carms-corner/responses/route.ts:58-122 | the table changes as AfterPost says, and the status is the rejection or 201 |
| ResponsesRoute.OwnershipRule | app/api/carms-corner/responses/route.ts:85-90 | for an existing task, a viewer may always respond, and a contributor exactly when the task is their own |
| ResponsesRoute.ResponsesAccumulate | app/api/carms-corner/responses/route.ts:92-99 | with no uniqueness check, two accepted posts for a task add two responses to it |
| ResponsesRoute.Get | app/api/carms-corner/responses/route.ts:8-50 | 401 without a signed-in user id; otherwise the responses, newest first, only those of the task when a non-empty task id is given |
| ResourcesRoute.BuildWhere | app/api/resources/route.ts:14-43 | a missing, empty or ALL product sets no condition, GENERAL asks for no product, any other product for that product; a missing, empty or ALL type sets no condition, any other type that type; a non-empty search term is kept |
| ResourcesRoute.EmptyWhereAdmitsAll | app/api/resources/route.ts:21-43 | with no conditions every resource is admitted |
| ResourcesRoute.GeneralMeansNoProduct | app/api/resources/route.ts:25-26 | GENERAL admits exactly the resources without a product |
| ResourcesRoute.SearchIgnoresCase | app/api/resources/route.ts:38-43 | a term found in the title ignoring case is found whether it is typed in upper or lower case |
| ResourcesRoute.FilterByTags | app/api/resources/route.ts:68-79 | without tags the fetched list is returned whole; with tags, a subsequence of it |
| ResourcesRoute.KeepsByTagsIff | app/api/resources/route.ts:72-78 | a resource passes exactly when its tags are an array sharing a tag, ignoring case, with the query; null, falsy and non-array tags fail |
| ResourcesRoute.TagFilterIff | app/api/resources/route.ts:68-79 | with a tag query, a fetched resource is returned exactly when its tags are an array sharing one of the trimmed query tags up to case |
| ResourcesRoute.NullTagsNeverSurvive | app/api/resources/route.ts:73 | a resource with null tags never survives a tag query |
| ResourcesRoute.Get | app/api/resources/route.ts:6-81 | 401 without a signed-in user; otherwise the fetched resources filtered by the tag query |
| ResourcesRoute.SizeOrNull | app/api/resources/route.ts:136 | a missing size or a size of zero becomes null; any other size is kept |
| ResourcesRoute.TagsOrNull | app/api/resources/route.ts:139 | null and falsy tags become null; arrays (even empty ones) and other truthy values are kept |
| ResourcesRoute.PostRejection | app/api/resources/route.ts:91-125 | 401 without a user, 403 for a non-contributor, 400 unless title and type are both non-empty; accepted exactly when all pass |
| ResourcesRoute.CreateResource | app/api/resources/route.ts:127-142 | the stored resource keeps title, type and description as given, turns each falsy optional field into null, is public unless told otherwise, and belongs to the session user |
| Uploads.UploadError.Status | app/api/resources/upload/route.ts:29-65 | an unauthorised upload answers 401, a forbidden one 403, and every missing-field, type or size rejection 400 |
| Uploads.ExtensionSpec | app/api/resources/upload/route.ts:73 | the extension is the text after the last '.', the whole name when there is no '.', and the fallback when the name is empty or ends in '.' |
| Uploads.StoredNameKeepsExtension | app/api/resources/upload/route.ts:72-74 | the extension of the stored name hash.extension is the extension of the uploaded name, whatever the hash |
| Auth.OrNull | app/api/resources/upload/route.ts:99-106 | a missing or empty text becomes null; any other text is kept |
| ResourceUpload.UploadRejection | app/api/resources/upload/route.ts:9-65 | 401 without a user, 403 for a non-contributor, 400 unless file, title and type are all given, then an invalid-type error outside the seventeen allowed MIME types, then a too-large error above 50 MiB; accepted exactly when every check passes |
| ResourceUpload.TypeBeforeSize | app/api/resources/upload/route.ts:53-65 | a disallowed type is rejected as such whatever the file's size |
| ResourceUpload.SizeBoundary | app/api/resources/upload/route.ts:9-61 | a PDF of exactly 52428800 bytes passes and one byte more is too large |
| ResourceUpload.FilePathSpec | app/api/resources/upload/route.ts:72-102 | the public path lies under /uploads/resources/ and ends in the stored name; that name's extension is the text after the uploaded name's last '.' (the whole name when it has no '.'), or 'bin' when that text is empty, so never empty |
| ResourceUpload.CommaTagsSpec | app/api/resources/upload/route.ts:92 | every fallback tag is non-empty, has no comma and no white space at either end; every non-blank piece contributes its trimmed text |
| ResourceUpload.ParseTags | app/api/resources/upload/route.ts:86-94 | no tags give null; tags that parse as JSON give the parsed value; other tags give the comma fallback |
| ResourceUpload.Upload | app/api/resources/upload/route.ts:25-115 | a rejected upload answers its rejection; an accepted one returns the stored name and metadata whose path, title, type, file name, size, MIME type and user come from the request, whose optional fields are null when empty, and whose tags are parsed as above |
| PhotoUpload.FirstChar | components/ui/PhotoUpload.tsx:29 | the first character of a word, or nothing for an empty word |
| PhotoUpload.Words | components/ui/PhotoUpload.tsx:28 | the words are the split name's pieces in order with the empty ones dropped: none is empty, and a string is a word exactly when it is a non-empty piece |
| PhotoUpload.JoinedFirstChars | components/ui/PhotoUpload.tsx:26-33 | joining the first characters of the pieces gives the first character of each non-empty word, so runs of spaces add nothing to the initials |
| PhotoUpload.InitialsOfWords | components/ui/PhotoUpload.tsx:26-33 | the initials are the upper-cased first characters of the first two non-empty words, so there are two exactly when the name has at least two words |
| PhotoUpload.EmptyNameInitials | components/ui/PhotoUpload.tsx:26-33 | an empty name has no initials |
| PhotoUpload.DoubleSpaceInitials | components/ui/PhotoUpload.tsx:26-33 | two words two spaces apart give the two first letters, upper-cased |
| PhotoUpload.ClientCheck | components/ui/PhotoUpload.tsx:42-52 | a type other than JPEG, PNG or WebP gets the type message; an allowed type passes exactly when it is at most 5 MiB |
| PhotoUpload.ClientAgreesWithRoute | components/ui/PhotoUpload.tsx:42-52 | for a contributor, the browser check lets through exactly the files the photo route accepts |
| PhotoUpload.UploadOutcome | components/ui/PhotoUpload.tsx:35-84 | a path is reported exactly when the file passes the check and the route stores it, and then the preview is the file's data and no error shows; otherwise an error shows and the preview falls back to the current photo |
| PhotoUpload.Picker.constructor | components/ui/PhotoUpload.tsx:19-23 | the preview is the current photo or empty; no error, not uploading, not dragging, nothing reported |
| PhotoUpload.Picker.Upload | components/ui/PhotoUpload.tsx:35-84 | nothing happens for a non-contributor; otherwise the preview, error and report follow the outcome above and the upload flag is down afterwards |
| PhotoUpload.Picker.Drop | components/ui/PhotoUpload.tsx:98-108 | dragging ends; a contributor's drop uploads the first file only, and an empty drop changes nothing else |
| PhotoUpload.Picker.FileSelect | components/ui/PhotoUpload.tsx:110-115 | the first chosen file, if any, is uploaded; the drag state is untouched |
| PhotoUpload.Picker.DragOver | components/ui/PhotoUpload.tsx:86-91 | only a contributor's drag is highlighted |
| PhotoUpload.Picker.DragLeave | components/ui/PhotoUpload.tsx:93-96 | dragging ends and nothing else changes |
| PhotoUpload.Picker.Remove | components/ui/PhotoUpload.tsx:123-131 | for a contributor the preview empties and null is reported; for anyone else nothing changes |
| PhotoUpload.FailureFallsBackToCurrent | components/ui/PhotoUpload.tsx:77-80 | a rejected file after a successful upload shows the photo the contact had before, not the one just uploaded |
| PhotoUploadRoute.PhotoRejection | app/api/contacts/upload-photo/route.ts:8-43 | 401 without a user, 403 for a non-contributor, 400 without a file, an invalid-type error for anything but JPEG, PNG or WebP, a too-large error above 5 MiB, and acceptance exactly when every check passes |
| PhotoUploadRoute.PhotoLimits | app/api/contacts/upload-photo/route.ts:8-9 | exactly JPEG, PNG and WebP pass the type check, and 5242880 bytes is the largest size that passes |
| PhotoUploadRoute.UploadPhoto | app/api/contacts/upload-photo/route.ts:11-67 | a rejected upload answers its rejection; an accepted one is stored as hash.extension and answered with its path under /uploads/contacts/ |
| PhotoUploadRoute.StoredPhotoPath | app/api/contacts/upload-photo/route.ts:50-61 | the path of a stored photo lies under /uploads/contacts/ and ends in the text after the uploaded name's last '.' (the whole name when it has no '.'), or 'jpg' when that text is empty, so never empty |
| ActivityContent.Classify | components/features/activity/ActivityContent.tsx:13-33 | a word is a mention exactly when it starts with '@', otherwise a tag exactly when it starts with '#', otherwise plain; the word is shown unchanged |
| ActivityContent.ClassifyAll | components/features/activity/ActivityContent.tsx:13 | one item per word, none of them a space, and the items' shown texts give back the words |
| ActivityContent.Texts | components/features/activity/ActivityContent.tsx:40-44 | one shown text per rendered item: a single space for a space item, otherwise the item's word |
| ActivityContent.InterleaveShape | components/features/activity/ActivityContent.tsx:34-37 | the fold turns n items into 2n-1 outputs: the items in order at the even positions and a space at every odd position |
| ActivityContent.InterleaveJoins | components/features/activity/ActivityContent.tsx:34-37 | the shown texts of the interleaved words concatenate to the words joined with single spaces |
| ActivityContent.RoundTrip | components/features/activity/ActivityContent.tsx:9-38 | the rendered texts, concatenated, give back the content exactly, whatever its spacing |
| ActivityContent.ProcessContentShape | components/features/activity/ActivityContent.tsx:9-38 | content with k spaces renders as 2k+1 items, spaces at exactly the odd positions, and no rendered word contains a space |
| ActivityContent.EmptyContent | components/features/activity/ActivityContent.tsx:11 | empty content renders as one empty plain word |
| ActivityContent.DoubleSpace | components/features/activity/ActivityContent.tsx:11-37 | two spaces between two words leave an empty plain word, with a space on each side, between their items |
| ActivityContent.MentionAndTag | components/features/activity/ActivityContent.tsx:11-37 | "@a  #b" renders as a mention, space, empty plain word, space, tag |
| QuickComposer.Composer.constructor | components/features/activity/QuickActivityComposer.tsx:32-34 | empty text, not posting, type GENERAL, the stored draft as found, nothing sent or created |
| QuickComposer.Composer.SaveDraft | components/features/activity/QuickActivityComposer.tsx:46-52 | the stored draft holds the text when it is non-empty and is removed otherwise; nothing else changes |
| QuickComposer.Composer.SetContent | components/features/activity/QuickActivityComposer.tsx:32-52 | the text changes and the stored draft follows it: present exactly when the text is non-empty, and then equal to it |
| QuickComposer.Composer.LoadDraft | components/features/activity/QuickActivityComposer.tsx:55-60 | a non-empty stored draft becomes the text and stays stored; otherwise nothing changes |
| QuickComposer.Composer.MountAsWritten | components/features/activity/QuickActivityComposer.tsx:45-60 | with the effects in their written order, mounting ends with empty text and no stored draft, whatever was stored |
| QuickComposer.Composer.Mount | components/features/activity/QuickActivityComposer.tsx:45-60 | with the draft loaded first, a stored non-empty draft is restored as the text and stays stored |
| QuickComposer.Composer.SelectType | components/features/activity/QuickActivityComposer.tsx:34 | only the selected type changes |
| QuickComposer.Composer.BeginSubmit | components/features/activity/QuickActivityComposer.tsx:71-87 | blank text or a post in flight sends nothing; otherwise the trimmed text is sent with the selected type and the post is in flight |
| QuickComposer.Composer.FinishSubmit | components/features/activity/QuickActivityComposer.tsx:89-105 | on success the created activity is handed on, the text empties, the draft is removed and the type resets to GENERAL; on failure text, type and draft are kept; the post is no longer in flight |
| QuickComposer.Composer.KeyDown | components/features/activity/QuickActivityComposer.tsx:108-113 | Enter with Meta or Ctrl on non-blank text while nothing is in flight sends exactly the trimmed text with the selected type and marks the post in flight; on blank text or while posting nothing is sent; any other key changes nothing; the text, type, draft and created activities are kept |
| QuickComposer.DraftOnMount | components/features/activity/QuickActivityComposer.tsx:45-60 | a stored draft "call back Tuesday" is lost by the mount as written and restored by the mount with the draft loaded first |
| QuickComposer.RetryAfterFailure | components/features/activity/QuickActivityComposer.tsx:71-106 | a second submit while posting sends nothing; after a failed post the same text and type can be sent again |
| NewContactForm.With | components/features/contacts/NewContactForm.tsx:60 | the edited field takes the new value; every other field and the photo keep theirs |
| NewContactForm.PatternPassesTest | components/features/contacts/NewContactForm.tsx:47 | every address the e-mail pattern accepts splits on '@' into a non-empty local part and a domain with an inner '.', and has no white space |
| NewContactForm.SplitAtOnlySeparator | components/features/contacts/NewContactForm.tsx:47 | a text whose only '@' is at position a splits into the text before it and the text after it |
| NewContactForm.TestMatchesPattern | components/features/contacts/NewContactForm.tsx:47 | every address passing the piecewise test is accepted by the e-mail pattern |
| NewContactForm.EmailOkIff | components/features/contacts/NewContactForm.tsx:47 | the piecewise test and the e-mail pattern agree on every text |
| NewContactForm.EmailExamples | components/features/contacts/NewContactForm.tsx:47 | "a@b.co" is accepted; "a@b" (no dot) and "a@@b.co" (two '@') are refused |
| NewContactForm.Validate | components/features/contacts/NewContactForm.tsx:40-57 | the name has an error exactly when it is blank, the e-mail exactly when it is non-empty and fails the pattern, the LinkedIn URL exactly when it is non-empty and lacks "linkedin.com"; no other field has one and no message is empty |
| NewContactForm.ValidIff | components/features/contacts/NewContactForm.tsx:40-57 | the form validates exactly when the name is not blank, the e-mail is empty or matches, and the LinkedIn URL is empty or mentions linkedin.com |
| NewContactForm.EnabledIsWeaker | components/features/contacts/NewContactForm.tsx:95 | every valid form enables the button, but a form with a name and a bad e-mail enables it too |
| NewContactForm.ContactForm.constructor | components/features/contacts/NewContactForm.tsx:25-38 | every field empty except the lead status COLD, no photo, no errors, not saving, nothing submitted |
| NewContactForm.ContactForm.InputChange | components/features/contacts/NewContactForm.tsx:59-66 | the field takes the value and its error is cleared; the other fields and errors are kept |
| NewContactForm.ContactForm.PhotoChange | components/features/contacts/NewContactForm.tsx:68-70 | only the photo changes |
| NewContactForm.ContactForm.Submit | components/features/contacts/NewContactForm.tsx:72-87 | the errors become the validation's; the values are handed on exactly when the form validates, after which saving has ended |
| NewContactForm.ContactForm.Cancel | components/features/contacts/NewContactForm.tsx:89-93 | cancelling goes through exactly when no save is in progress |
| NewContactForm.EditIsLocal | components/features/contacts/NewContactForm.tsx:59-60 | editing one field leaves every other field and the photo unchanged |
| ContactsList.CountsSplit | components/features/contacts/ContactsList.tsx:67-72 | the HOT, WARM and COLD counts plus the contacts with any other status make up the ALL count |
| ContactsList.CountsPartition | components/features/contacts/ContactsList.tsx:67-72 | the HOT, WARM and COLD badges never add up to more than ALL, and add up to exactly ALL when every contact has one of those statuses |
| ContactsList.Filtered | components/features/contacts/ContactsList.tsx:59-65 | the listed contacts are a subsequence of all contacts; a contact is listed exactly when the search term occurs, ignoring case, in its name, company or e-mail (never in a null one) and the status filter is ALL or its status |
| ContactsList.ShowAll | components/features/contacts/ContactsList.tsx:59-65 | an empty search with filter ALL lists every contact in order |
| ContactsList.FilteredCountMatchesBadge | components/features/contacts/ContactsList.tsx:59-72 | with an empty search, filtering by HOT, WARM or COLD lists as many contacts as that status's badge shows |
| ContactsList.QuickStatusUpdate | components/features/contacts/ContactsList.tsx:74-79 | with a handler, the update sent for the contact carries only the new lead status; without one nothing is sent |
| ContactActivities.FilterByType | components/features/contacts/ContactActivities.tsx:53-55 | the shown activities are a subsequence of the list; ALL shows the whole list, any other filter exactly the activities of that type |
| ContactActivities.TypeCounts | components/features/contacts/ContactActivities.tsx:57-63 | the count map has the key ALL and one key per distinct type; each type maps to the number of activities of that type, and ALL maps to the length of the list unless some type is itself named ALL |
| ContactActivities.CountIsFilteredLength | components/features/contacts/ContactActivities.tsx:53-63 | the count shown on a type's button is the number of activities that button's filter shows |
| ContactActivities.SumCountsSnoc | components/features/contacts/ContactActivities.tsx:61 | one more activity adds one to the summed counts of distinct types exactly when its type is among them |
| ContactActivities.CountsSumToTotal | components/features/contacts/ContactActivities.tsx:57-63 | the per-type counts of the distinct types add up to the number of activities |
| ContactActivities.TypesSnoc | components/features/contacts/ContactActivities.tsx:57 | one more activity leaves the distinct types unchanged when its type is known, and otherwise appends its type at the end |
| ContactActivities.NewTypeCountsOnce | components/features/contacts/ContactActivities.tsx:61 | an activity of a type not seen before is counted once for that type |
| ContactActivities.TypeCountsSum | components/features/contacts/ContactActivities.tsx:57-63 | unless a type is named ALL, the ALL count equals the sum of the per-type counts |
| ContactActivities.AllTypeOverridesTotal | components/features/contacts/ContactActivities.tsx:58-63 | a type named ALL overwrites the ALL count with the number of activities of that type |
| Contacts.Merge | components/features/contacts/ContactsView.tsx:73 | each field present in the update replaces the contact's and every absent field keeps the contact's value, so the empty update gives back the contact |
| Contacts.StatusOnlyMerge | components/features/contacts/ContactsView.tsx:73 | merging a status-only update changes the lead status and nothing else |
| Contacts.MergeIdempotent | components/features/contacts/ContactsView.tsx:73 | merging the same update twice gives the same contact as merging it once |
| ContactsView.ApplyUpdate | components/features/contacts/ContactsView.tsx:71-75 | the list keeps its length and order; contacts with another id are unchanged, those with the given id have the update merged in, and an update without a new id keeps every id |
| ContactsView.RemoveId | components/features/contacts/ContactsView.tsx:113 | the result is a subsequence of the list holding exactly the contacts whose id differs from the removed one |
| ContactsView.RemoveAbsentId | components/features/contacts/ContactsView.tsx:113 | removing an id that no contact has leaves the list unchanged |
| ContactsView.UpdateAbsentId | components/features/contacts/ContactsView.tsx:71-75 | updating an id that no contact has leaves the list unchanged |
| ContactsView.View.constructor | components/features/contacts/ContactsView.tsx:43-46 | the local list is the initial contacts; nothing selected, not adding, not loading |
| ContactsView.View.InitialChanged | components/features/contacts/ContactsView.tsx:48-50 | a new initial list replaces the local list; selection, add mode and loading flag are kept |
| ContactsView.View.Select | components/features/contacts/ContactsView.tsx:52-55 | the contact becomes selected and add mode ends; the list is kept |
| ContactsView.View.StartAdd | components/features/contacts/ContactsView.tsx:57-60 | add mode starts and the selection is cleared |
| ContactsView.View.CancelAdd | components/features/contacts/ContactsView.tsx:62-64 | add mode ends; everything else is kept |
| ContactsView.View.Update | components/features/contacts/ContactsView.tsx:66-88 | the update is merged into the matching contacts; only when a parent handler is given and throws does the list revert to the initial contacts; loading ends either way |
| ContactsView.View.Create | components/features/contacts/ContactsView.tsx:90-106 | with a handler that succeeds add mode ends; a handler that throws is reported back and add mode is kept; without a handler nothing changes; loading ends |
| ContactsView.View.Delete | components/features/contacts/ContactsView.tsx:108-130 | the contacts with the id are removed and a selection of that id is cleared; only when a parent handler is given and throws does the list revert to the initial contacts, while the selection stays cleared |
| ContactsView.FailedDeleteOfSelected | components/features/contacts/ContactsView.tsx:108-130 | after a failed delete of the selected contact, the contact is listed again but no longer selected |
| InlineEdit.Editor.constructor | components/ui/InlineEdit.tsx:14-23 | the editor starts closed, holding the parent's value, with nothing reported |
| InlineEdit.Editor.ValueChanged | components/ui/InlineEdit.tsx:26-28 | a new value from the parent is copied into the editor; the editing flag and the reports are kept |
| InlineEdit.Editor.Begin | components/ui/InlineEdit.tsx:58-66 | a click on the text opens the editor without changing its text |
| InlineEdit.Editor.Change | components/ui/InlineEdit.tsx:76 | typing replaces the editor text and nothing else |
| InlineEdit.Editor.Save | components/ui/InlineEdit.tsx:37-42 | the trimmed text is reported exactly when it differs from the parent's value; editing ends either way; every reported value has no white space at either end |
| InlineEdit.Editor.Blur | components/ui/InlineEdit.tsx:77 | leaving the editor saves exactly as the save handler does |
| InlineEdit.Editor.Cancel | components/ui/InlineEdit.tsx:44-47 | the editor goes back to the parent's value and closes, reporting nothing |
| InlineEdit.Editor.KeyDown | components/ui/InlineEdit.tsx:49-56 | Enter saves in a single-line editor, Escape cancels, and any other key (Enter in a multi-line editor included) changes nothing |
| InlineEdit.SaveWithoutEdits | components/ui/InlineEdit.tsx:37-42 | saving " Acme " unedited reports "Acme", because the trimmed text differs from the value; padding "Acme" with spaces reports nothing |
| TaskResponseModal.Choices | components/features/carms-corner/TaskResponseModal.tsx:132 | the status buttons are the configured keys in order, without PENDING, and every other key is offered |
| TaskResponseModal.RequestBody | components/features/carms-corner/TaskResponseModal.tsx:45-49 | the body carries the task id and the status, no content, and the notes exactly when they are non-empty |
| TaskResponseModal.ResponseModal.constructor | components/features/carms-corner/TaskResponseModal.tsx:27-32 | APPROVED with empty notes, not loading, nothing sent, reported, alerted or closed |
| TaskResponseModal.ResponseModal.SelectStatus | components/features/carms-corner/TaskResponseModal.tsx:136 | the clicked choice becomes the status, which is never PENDING; nothing else changes |
| TaskResponseModal.ResponseModal.ChangeNotes | components/features/carms-corner/TaskResponseModal.tsx:170 | the notes take the typed text; nothing else changes |
| TaskResponseModal.ResponseModal.SubmitEnabled | components/features/carms-corner/TaskResponseModal.tsx:207 | enabled exactly when not loading and either the status is APPROVED or the notes are not blank |
| TaskResponseModal.ResponseModal.Close | components/features/carms-corner/TaskResponseModal.tsx:68-74 | the status returns to APPROVED, the notes are emptied and the close callback runs once |
| TaskResponseModal.ResponseModal.Submit | components/features/carms-corner/TaskResponseModal.tsx:34-66 | a non-viewer or a missing task changes nothing; otherwise one request with the current status and notes is sent, a created response is reported and the form resets and closes, a refused or thrown request shows one alert and keeps the form; loading ends off |
| TaskResponseModal.RequestAccepted | components/features/carms-corner/TaskResponseModal.tsx:45-49 | a viewer's request for an existing task passes every guard of the responses route, which stores the chosen status and task, with notes exactly when they were non-empty |
| TaskResponseModal.NeverSendsPending | components/features/carms-corner/TaskResponseModal.tsx:132-136 | every status the modal can hold is APPROVED or a configured key, and never PENDING |
| TaskResponseModal.RetryAfterRefusal | components/features/carms-corner/TaskResponseModal.tsx:34-74 | after a refused request the same status and notes are sent again, and a created one resets the status to APPROVED |
| ActivityPage.FilterFeed | app/dashboard/carms-corner/activity/page.tsx:106-110 | the shown rows are a subsequence of the feed, every shown row passes both selects, and every feed row passing both is shown |
| ActivityPage.AllShowsEverything | app/dashboard/carms-corner/activity/page.tsx:106-110 | with both selects on 'all' the whole feed is shown |
| ActivityPage.FiltersCompose | app/dashboard/carms-corner/activity/page.tsx:106-110 | filtering by urgency and then by product is the same as filtering by both |
| ActivityPage.Minutes | app/dashboard/carms-corner/activity/page.tsx:94 | the minute count is the floor of the elapsed time in minutes, negative elapsed times included |
| ActivityPage.Bucket | app/dashboard/carms-corner/activity/page.tsx:94-98 | minutes below one hour, whole hours (1 to 23) below one day, whole days from one day on; each amount brackets the elapsed time |
| ActivityPage.FormatTimeAgoReadsBack | app/dashboard/carms-corner/activity/page.tsx:91-99 | the text is the amount in decimal, the unit letter and " ago", and its number part reads back as the amount |
| ActivityPage.TimeAgoExamples | app/dashboard/carms-corner/activity/page.tsx:94-98 | the boundaries 59999 ms, -1 ms, 3599999 ms, 3600000 ms, 86399999 ms and 86400000 ms fall in 0m, -1m, 59m, 1h, 23h and 1d |
| ActivityPage.ProductInitial | app/dashboard/carms-corner/activity/page.tsx:101-104 | the first letter of a known product's non-empty name, else the first letter of the key, else nothing |
| Numbers.NatToString | app/dashboard/carms-corner/activity/page.tsx:96-98 | the decimal text of a non-negative count is non-empty, all digits, and has no leading zero |
| Numbers.ParseNatToString | app/dashboard/carms-corner/activity/page.tsx:96-98 | reading the digits of a non-negative count back gives the count |
| Numbers.IntToString | app/dashboard/carms-corner/activity/page.tsx:96 | the text of an integer is non-empty and starts with '-' exactly for a negative one |
| Numbers.ParseIntToString | app/dashboard/carms-corner/activity/page.tsx:96 | reading the text of an integer back gives the integer |
| Numbers.IntToStringInjective | app/dashboard/carms-corner/activity/page.tsx:96-98 | different amounts are shown as different texts |
| KanbanBoard.Column | components/features/projects/KanbanBoard.tsx:62 | a column lists, in board order, exactly the projects whose status is its id |
| KanbanBoard.GroupByStatus | components/features/projects/KanbanBoard.tsx:61-64 | the grouping has one entry per column id, and each entry is that column's projects |
| KanbanBoard.ColumnsDisjoint | components/features/projects/KanbanBoard.tsx:61-64 | no project sits in two different columns |
| KanbanBoard.ShownIffColumnStatus | components/features/projects/KanbanBoard.tsx:37-42 | a project shows in some column exactly when its status is one of the four column ids, and then in its own status's column |
| KanbanBoard.CancelledHidden | components/features/projects/KanbanBoard.tsx:37-42 | a cancelled project shows in no column |
| KanbanBoard.FindById | components/features/projects/KanbanBoard.tsx:79 | nothing exactly when no project has the id; otherwise the first project with that id |
| KanbanBoard.DropPatch | components/features/projects/KanbanBoard.tsx:75-87 | a status update is asked for exactly when the target is a column id, the project is found, and its status differs from the target; the update names the project and the target status |
| KanbanBoard.NoPatchWithoutMove | components/features/projects/KanbanBoard.tsx:78-80 | dropping a project on its own column, or on anything that is not a column, asks for nothing |
| KanbanBoard.ApplyPatch | components/features/projects/KanbanBoard.tsx:81 | the list keeps its length and ids; the projects with that id take the new status and keep every other field; the others are unchanged |
| KanbanBoard.MoveLandsInTarget | components/features/projects/KanbanBoard.tsx:61-87 | once a requested move is stored, the moved project shows in the target column and in no other |
| KanbanBoard.Board.constructor | components/features/projects/KanbanBoard.tsx:51 | nothing is being dragged and nothing has been requested |
| KanbanBoard.Board.DragStart | components/features/projects/KanbanBoard.tsx:66-68 | the dragged project's id is recorded |
| KanbanBoard.Board.DragEnd | components/features/projects/KanbanBoard.tsx:70-90 | without a target nothing changes, not even the drag state; with one, the update of the drop decision is requested when there is one, and the drag state clears |
| KanbanBoard.Board.ActiveProject | components/features/projects/KanbanBoard.tsx:92 | the overlay shows a project exactly when a non-empty id is being dragged and some project has it, and then a project with that id |
| ProjectCard.CopiesAgree | app/dashboard/page.tsx:91-104 | the copy of the gradient choice on the dashboard home page gives the card's gradient on every status and progress |
| ProjectCard.GradientIgnoresProgress | components/features/projects/ProjectCard.tsx:30-43 | only a project in progress has a gradient that depends on its progress |
| ProjectCard.InProgressBands | components/features/projects/ProjectCard.tsx:33-37 | two projects in progress share a gradient exactly when their progress lies on the same side of each of 75, 50 and 25 |
| ProjectCard.GradientIdentifiesStatus | components/features/projects/ProjectCard.tsx:30-43 | different known statuses never share a gradient; every other status gets the default one, which no known status uses |
| ProjectCard.Card.constructor | components/features/projects/ProjectCard.tsx:53 | the card shows the stored progress and has sent nothing |
| ProjectCard.Card.ProgressUpdate | components/features/projects/ProjectCard.tsx:82-93 | the new progress is shown at once and sent when there is a handler; when the handler throws the card shows the stored progress again |
| ProjectCard.Card.TitleUpdate | components/features/projects/ProjectCard.tsx:71-80 | the new title is sent when there is a handler; the progress is untouched |
| ProjectCard.RevertGoesToStored | components/features/projects/ProjectCard.tsx:82-93 | a failed change after an earlier unsent one shows the stored value 10 and its gradient, not the earlier 60 |
| ResourceCard.FirstDepicting | components/features/resources/ResourceCard.tsx:49-56 | the first icon of an order whose test the type passes: none exactly when no test passes, otherwise one whose test passes with every earlier test failing |
| ResourceCard.MimeIconIsFirstMatch | components/features/resources/ResourceCard.tsx:48-56 | the MIME checks pick the first of image, video, audio, PDF, Word, spreadsheet, presentation and archive that the type passes |
| ResourceCard.MimeTakesPrecedence | components/features/resources/ResourceCard.tsx:48-66 | when a MIME check applies the resource type is irrelevant; otherwise the type's icon is shown, the folder for any type outside the six known ones |
| ResourceCard.NoMimeUnknownType | components/features/resources/ResourceCard.tsx:58-66 | with no MIME type an unknown resource type gets the folder |
| ResourceCard.ShowTags | components/features/resources/ResourceCard.tsx:143-199 | no tag row exactly when there are no array tags; otherwise the first min(3, n) tags as chips and a remainder badge exactly when n > 3, chips plus remainder making n |
| ResourceCard.MoreText | components/features/resources/ResourceCard.tsx:195-198 | the badge reads "+", then digits that parse back to the remainder, then " more" |
| ResourceCard.NonArrayTagsShowNothing | components/features/resources/ResourceCard.tsx:143 | tags that are not an array show no tag row |
| ResourceCard.DownloadAction | components/features/resources/ResourceCard.tsx:122-131 | a file path is saved (under the file name, else the title) in preference to opening the link |
| ResourceCard.DownloadButton.constructor | components/features/resources/ResourceCard.tsx:46 | not loading, and nothing tracked, performed or reported |
| ResourceCard.DownloadButton.Label | components/features/resources/ResourceCard.tsx:225 | when not loading, the label is "Download" exactly when a click saves a file |
| ResourceCard.DownloadButton.Download | components/features/resources/ResourceCard.tsx:111-139 | without path or link nothing happens; otherwise the download is tracked, then, unless tracking throws, the browser action runs and the id is reported; loading ends either way |

## Left out

- **Database queries.**
  - Prisma `findMany`/`create`/`include`, and the columns a query selects, are not modelled.
  - Tables are in-memory sequences in creation order.
  - "Newest first" is the reverse of that order, and `take` is a prefix of it.
  - The priority ordering of tasks (`priority: 'desc'`) and the activity listing of app/api/activities/route.ts (GET, with `take: 20`) are database ordering and fetch plumbing, so they are not modelled.
- **Authentication wiring.** NextAuth configuration and `useAuth` are not part of this model.
- **File I/O and hashing.**
  - Directory creation and file writes are left out.
  - The MD5 digest is an opaque string parameter.
- **Foreign parsing.**
  - `JSON.parse` of the tags field is a parameter, and only the comma-separated fallback is modelled.
  - `parseInt` of the mentions `limit` is left out; the limit is a natural number, 50 when absent.
- **Concurrency.**
  - The `Promise.all` of mention inserts is modelled in row order: any set of inserts may reject and the others still store their rows, but the order in which concurrent inserts complete is not captured.
  - The mentions route's check-then-insert is modelled as sequential steps; races between requests are not captured, and no atomicity is claimed.
- **Internal server errors.** Each route's catch-all reply of 500 is not modelled. It covers a body that is not valid JSON, a non-string content or name whose `.trim()` throws, and a failing database call. The routes are app/api/activities/route.ts (166), app/api/carms-corner/tasks/route.ts (149), app/api/carms-corner/mentions/route.ts (129), app/api/carms-corner/responses/route.ts (125), app/api/resources/route.ts (163), app/api/resources/upload/route.ts (121) and app/api/contacts/upload-photo/route.ts (73); the listing routes' 500 replies are left out in the same way.
- **Clock and floating point.**
  - `Date` and locale formatting are not modelled; the time-ago text takes elapsed milliseconds.
  - `formatFileSize` (logarithms and `toFixed`) is left out.
- **Unicode.**
  - Case mapping, `trim` white space and the regex classes `\b`, `\w` and `\s` are ASCII only.
  - Product names are plain words, since the detector places them in a regular expression unescaped.
- **Browser effects.**
  - The toasts of the Kanban board and the project card are left out.
  - The quick composer's failure is only logged with `console.error`, which the model drops.
  - The task response modal's `alert` is reduced to a counter, and the DOM anchor used for downloads and `window.open` to recorded actions.
  - The `FileReader` callback order is left out; the reader's result is a parameter.
  - Editor focus and text selection, textarea resizing and drag sensors are left out.
- **Presentation helpers.** These only pick CSS classes or emoji and are not modelled:
  - `getProductColor`, `getTypeColor`, `getUrgencyColor`, `getStatusColor` and `getStatusIcon`;
  - `getActivityTypeColor`, and the `replace('_', ' ')` of type labels.
- **Configuration constants.**
  - `PRODUCTS` and `RESPONSE_STATUS_CONFIG` are not part of this model.
  - The catalog is an ordered list of (key, name) pairs, and the status keys are a list of strings.
- **Component plumbing that only calls out.**
  - The project card's `handleDuplicate`, which calls its handler and shows a toast, is left out.
  - The contacts view's `selectedContact` lookup is left out.
  - The activity page's fetch effect is left out; its rows are a parameter.
- TasksRoute.NewTask: the due date is kept as the request's string, while the source stores `new Date(dueDate)`. A string that is not a valid date reaches the database call, where it fails with a 500; the model does not capture that failure.
- ResourceCard.DownloadButton.Download: a failed tracking request is a boolean parameter. It does not model why the request fails.
- QuickComposer.Composer.FinishSubmit: the route's reply is reduced to success or failure. The created activity handed to `onActivityCreated` is only counted, not modelled.
- ProjectCard: the progress is an integer, while the source stores a JavaScript number; fractional progress values are not modelled.
- PhotoUpload.Picker.FileSelect: the file input's change event is modelled by its file list; the preview URL produced by the reader is a parameter.

## Findings

| source | as written | input that shows it | evidently intended | confidence | as-written member | corrected member |
|---|---|---|---|---|---|---|
| components/features/activity/QuickActivityComposer.tsx:45-60 | the auto-save effect is declared before the load-draft effect, so on mount it runs first with the empty content and removes the stored draft before the load effect reads it | a stored draft "call back Tuesday" when the composer mounts | the stored draft is restored as the content | not executed | QuickComposer.Composer.MountAsWritten | QuickComposer.Composer.Mount |
