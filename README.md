# Messaging core in Dafny

A Dafny model of six parts of an Android messaging application, with proofs about them:

- **The blocking SMS sender** (`sms_sender.dfy`). It splits a message into parts and hands one send per part to the telephony layer. It then waits, up to a timeout, until every part has reported a status. The outcome is a `SendResult`: the number of parts still pending, and the highest failure level reported (NONE < TEMPORARY < PERMANENT). Status callbacks arriving during the wait are explicit calls, and the clock is a sequence of readings.
- **The common-phrase store** (`pharser_manager.dfy`). This is an in-memory map from row id to `ItemData`. Each entry carries a flag (normal, insert, update, delete) that says what the next write to the database must do. New phrases get ids counting up from 10000. The write partitions the map into insert, update and delete batches. It sorts the inserts by row id and builds a `_id IN(...)` clause for the deletes.
- **File helpers** (`file_util.dfy`). The file system is a map from paths to kinds. The model covers:
  - the search for a free numbered file name;
  - the content-type-to-extension and file-name-format rules;
  - the ancestor walk that decides whether one directory lies inside another;
  - the recursive delete that spares one excluded path.
- **The pending attachment** (`pending_attachment.dfy`). It has four states, PENDING, LOADING, LOADED and FAILED. It reports the outcome of a background load to its draft and writes its state to a parcel.
- **The image request descriptor** (`image_request.dfy`). It holds sizes, crop options and DRM settings, and builds its cache key from them.
- **The respond-via-message service** (`no_confirmation.dfy`). It decides what a send-without-confirmation intent leads to: nothing, a too-many-recipients toast, the conversation list, or an inserted message followed by a notification update.

`java_lang.dfy` holds the few library behaviours the code relies on:
- `TextUtils.isEmpty`;
- `Integer.toString` and its inverse;
- `String.split` with Java's trailing-empty rule;
- ASCII lower-casing;
- a `String` as UTF-16 code units, where a character outside the Basic Multilingual Plane takes two.

Some Android constants come from framework classes outside this model:
- result codes: `RESULT_OK` = -1, generic failure 1, radio off 2, no service 4;
- `NO_ERROR_CODE` = -1;
- the SMS user-data capacities 140 and 134;
- `ImageRequest.UNSPECIFIED_SIZE` = -1;
- `DEFAULT_SELF_SUB_ID` = -1.

All of them are written with the values the Android platform gives them.

Two behaviours of the code are modelled as written:
- `removeFileOrDirectoryExcept(root, exclude)` checks the exclusion only against the children it visits. Excluding `root` itself therefore deletes everything. A directory that still holds the excluded path is not deleted, because `File.delete` fails on a non-empty directory.
- When `sendInternal` throws, `sendMessage` leaves its entry in the pending map. The model keeps that entry.

## Model

| member | source | states |
|---|---|---|
| SmsSender.FailureLevel | src/com/android/messaging/sms/SmsSender.java:116-131 | RESULT_OK is NONE; NO_SERVICE is TEMPORARY; every other code (radio off, generic failure, unknown) is PERMANENT, each as an if-and-only-if |
| SmsSender.SendResult.constructor | src/com/android/messaging/sms/SmsSender.java:96-100 | requires at least one part; starts with every part pending and failure level NONE |
| SmsSender.SendResult.SetPartResult | src/com/android/messaging/sms/SmsSender.java:103-106 | one part fewer pending (no floor) and the level raised to the max with this code's level |
| SmsSender.SendResult.SetHighestFailureLevel | src/com/android/messaging/sms/SmsSender.java:133-138 | the level never decreases and becomes the max of the old level and the code's level |
| SmsSender.ReplayTally | src/com/android/messaging/sms/SmsSender.java:96-138 | after any sequence of part results, pending has dropped by their number and the level is the max of the levels seen |
| SmsSender.ReplayOrderIndependent | src/com/android/messaging/sms/SmsSender.java:103-138 | the final tally does not depend on the order in which part results arrive |
| SmsSender.CompletesAfterAllParts | src/com/android/messaging/sms/SmsSender.java:96-110 | hasPending stays true exactly while fewer results than parts have arrived; the level is always one of the three |
| SmsSender.ReplayAppend | src/com/android/messaging/sms/SmsSender.java:103-106 | recording two batches of results one after the other equals recording them together |
| SmsSender.WorstLevelSnoc | src/com/android/messaging/sms/SmsSender.java:133-138 | the worst level of a longer run is the max of the previous worst and the new code's level |
| SmsSender.CodesForAppend | src/com/android/messaging/sms/SmsSender.java:150-167 | the results addressed to one request split over concatenated callback runs |
| SmsSender.ReplayAll | src/com/android/messaging/sms/SmsSender.java:150-167 | a callback run leaves the set of pending requests unchanged and updates each entry with exactly the results addressed to it |
| SmsSender.ReplayAllSnoc | src/com/android/messaging/sms/SmsSender.java:150-167 | one more callback records one result on its own request only |
| SmsSender.ReplayAllAppend | src/com/android/messaging/sms/SmsSender.java:150-167 | two callback runs in turn equal their concatenation |
| SmsSender.ReplayAllWithout | src/com/android/messaging/sms/SmsSender.java:276-329 | callbacks for the other requests are unaffected by adding or removing one request's entry |
| SmsSender.SmsSender.constructor | src/com/android/messaging/sms/SmsSender.java:70-76 | the pending map starts empty and the separate-messages flag unset |
| SmsSender.SmsSender.SetResult | src/com/android/messaging/sms/SmsSender.java:150-197 | a null or unknown request id changes nothing; a known one records the result on that entry only; the error toast appears for a failure with an error code, the success toast only when reports are enabled and no part is pending |
| SmsSender.SmsSender.Deliver | src/com/android/messaging/sms/SmsSender.java:150-167 | a run of callbacks leaves the tallies as ReplayAll of them |
| SmsSender.SmsSender.DeliverNext | src/com/android/messaging/sms/SmsSender.java:150-167 | one more callback advances the tallies to the replay of one more status |
| SmsSender.SmsSender.Register | src/com/android/messaging/sms/SmsSender.java:275-276 | puts a fresh result with all parts pending under the message uri, replacing any previous one |
| SmsSender.SmsSender.WaitOnce | src/com/android/messaging/sms/SmsSender.java:319-325 | one wake-up records exactly the callbacks that arrived before it |
| SmsSender.SmsSender.AwaitParts | src/com/android/messaging/sms/SmsSender.java:310-327 | the wait ends only when no part is pending or the timeout has elapsed, never earlier, having recorded the callbacks that arrived |
| SmsSender.SmsSender.WaitWhilePending | src/com/android/messaging/sms/SmsSender.java:319-325 | a wake-up taken while a part was pending and before the deadline records its callbacks and extends the "not yet timed out" and "still pending" facts to it |
| SmsSender.WakeupStep | src/com/android/messaging/sms/SmsSender.java:310-327 | a wake-up before the deadline while a part is pending keeps "not yet timed out" and "still pending" true for every wake-up so far |
| SmsSender.SmsSender.WaitAndRemove | src/com/android/messaging/sms/SmsSender.java:310-329 | after the wait the entry is gone, the result holds exactly its own recorded statuses, the wait ended for a reason, and the other entries saw only their own statuses |
| SmsSender.SmsSender.Unregister | src/com/android/messaging/sms/SmsSender.java:329 | removes the message's entry and no other |
| SmsSender.SmsSender.Dispatch | src/com/android/messaging/sms/SmsSender.java:275-334 | the send fails exactly when a send call that is reached throws a fatal exception, the number of calls following the cached or configured flag; the error is InvalidFdnDestination for an FDN rejection and SendingFailed otherwise; a failed send leaves the new entry in the map; otherwise the wait ended only when nothing was pending or the timeout had passed, the result holds the recorded callbacks and the entry is removed |
| SmsSender.SmsSender.SendMessage | src/com/android/messaging/sms/SmsSender.java:210-335 | each resolution error is raised before the map is touched; success exactly when resolution succeeds and no reached send call throws a fatal exception; a failed send reports InvalidFdnDestination for an FDN rejection and SendingFailed otherwise, and leaves only the fresh entry added to the map; on success the result is the freshly registered object, the wait ended only when nothing was pending or the timeout had passed, the returned tally replays this message's callbacks over its part count, and every other request has received only its own statuses |
| SmsSender.Route | src/com/android/messaging/sms/SmsSender.java:226-239 | email or alias destinations go to the email gateway with the address prefixed to the text; others are stripped of separators |
| SmsSender.Resolve | src/com/android/messaging/sms/SmsSender.java:220-273 | the three errors (empty text under a negative flag, empty destination, no parts when the flag is not 1 or 2), each raised under exactly its condition; on success at least one part |
| SmsSender.BuildStatusIntents | src/com/android/messaging/sms/SmsSender.java:343-367 | one sent intent per part, and a delivery intent only on the last part when a report is required |
| SmsSender.StatusIntentsIdentifyParts | src/com/android/messaging/sms/SmsSender.java:346-366 | part ids are pairwise distinct, 0 exactly for a single part, and a delivery intent shares its part's id |
| SmsSender.SmsSender.SendInternal | src/com/android/messaging/sms/SmsSender.java:338-396 | the separate-messages flag is read once and cached; the parts before a throwing call stay sent and the later ones are never sent; only an FDN rejection (InvalidFdnDestination) or a non-argument exception (SendingFailed) fails the send, any other IllegalArgumentException is swallowed |
| SmsSender.HandToSmsManager | src/com/android/messaging/sms/SmsSender.java:345-385 | one sendTextMessage per part with its own intents up to the throwing call, or one sendMultipartTextMessage with all of them unless it throws; the exception escapes exactly when the throwing call is reached |
| SmsSender.IsFdnRejectionIgnoresCase | src/com/android/messaging/sms/SmsSender.java:387-392 | the FDN check is a case-insensitive comparison with "Invalid FDN destinationAddress" |
| SmsSender.DivideMessageFor16Bit | src/com/android/messaging/sms/SmsSender.java:409-441 | the loop cuts the text, as UTF-16 code units, into the chunks of the specification function |
| SmsSender.DivideMessageFor16BitProperties | src/com/android/messaging/sms/SmsSender.java:409-441 | the chunks glue back to the code units of the text, each is non-empty and at most 67 or 70 code units long, and their number is the ceiling of the 16-bit length over the capacity |
| SmsSender.ChunksConcat | src/com/android/messaging/sms/SmsSender.java:421-440 | concatenating the chunks gives back the text |
| SmsSender.ChunksBounded | src/com/android/messaging/sms/SmsSender.java:421-440 | every chunk is non-empty and within the chunk length |
| SmsSender.ChunksCount | src/com/android/messaging/sms/SmsSender.java:421-440 | the number of chunks is the length divided by the chunk length, rounded up |
| PharserManager.InsertKey | src/com/sprd/messaging/sms/commonphrase/model/PharserManager.java:267 | inserting a key adds exactly that key to the multiset |
| PharserManager.SortKeys | src/com/sprd/messaging/sms/commonphrase/model/PharserManager.java:267 | sorting the key array is a permutation of it |
| PharserManager.SortKeysAscending | src/com/sprd/messaging/sms/commonphrase/model/PharserManager.java:267 | distinct keys come out in strictly ascending order |
| PharserManager.AscendingUnique | src/com/sprd/messaging/sms/commonphrase/model/PharserManager.java:267 | two ascending sequences with the same members are equal |
| PharserManager.SortedKeySet | src/com/sprd/messaging/sms/commonphrase/model/PharserManager.java:262-267 | the sorted key array is ascending, holds exactly the map's keys and does not depend on the map's iteration order |
| PharserManager.VisibleMembers | src/com/sprd/messaging/sms/commonphrase/model/PharserManager.java:269-278 | the listed ids are exactly the keys whose item is not flagged deleted |
| PharserManager.VisibleAscending | src/com/sprd/messaging/sms/commonphrase/model/PharserManager.java:269-278 | the list keeps ascending id order |
| PharserManager.ListingStep | src/com/sprd/messaging/sms/commonphrase/model/PharserManager.java:269-278 | one key: a deleted item is skipped, any other is stamped with the current list length and appended |
| PharserManager.ListingList | src/com/sprd/messaging/sms/commonphrase/model/PharserManager.java:255-280 | the list holds the visible items in key order, each stamped with its position and the same item as in the map |
| PharserManager.ListingUntouched | src/com/sprd/messaging/sms/commonphrase/model/PharserManager.java:269-278 | deleted items are left exactly as they were |
| PharserManager.ListingStamps | src/com/sprd/messaging/sms/commonphrase/model/PharserManager.java:269-278 | listing changes nothing in an item but its array index |
| PharserManager.ListingKeepsRowIds | src/com/sprd/messaging/sms/commonphrase/model/PharserManager.java:269-278 | listing keeps every item filed under its own row id |
| PharserManager.Listing | src/com/sprd/messaging/sms/commonphrase/model/PharserManager.java:255-280 | listing keeps the map's key set |
| PharserManager.PharserManager.MapToArrayList | src/com/sprd/messaging/sms/commonphrase/model/PharserManager.java:255-280 | a null list returns null and changes nothing; otherwise the result and the new map are the listing of the sorted keys |
| PharserManager.PharserManager.ListVisible | src/com/sprd/messaging/sms/commonphrase/model/PharserManager.java:269-278 | the loop over the sorted keys leaves the map and the list as the Listing fold of the keys |
| PharserManager.PharserManager.constructor | src/com/sprd/messaging/sms/commonphrase/model/PharserManager.java:306-311 | starts empty, uninitialised, with the id counter at 10000 |
| PharserManager.PharserManager.GroupId | src/com/sprd/messaging/sms/commonphrase/model/PharserManager.java:282-284 | pre-increments the counter and returns the new value, so ids handed out are above 10000 |
| PharserManager.PharserManager.AddNewData | src/com/sprd/messaging/sms/commonphrase/model/PharserManager.java:216-229 | an empty text returns -1 and changes nothing; otherwise a fresh id above 10000 holds a new item flagged insert, and 0 is returned |
| PharserManager.PharserManager.DelById | src/com/sprd/messaging/sms/commonphrase/model/PharserManager.java:231-238 | an unknown key returns -1 and changes nothing; a known one is only flagged deleted |
| PharserManager.PharserManager.UpdateById | src/com/sprd/messaging/sms/commonphrase/model/PharserManager.java:240-253 | nothing given or an unknown key returns -1; otherwise only that item changes, taking the given text and type and the update flag |
| PharserManager.FlushAllEntries | src/com/sprd/messaging/sms/commonphrase/model/PharserManager.java:109-122 | after the partition pass every visited item carries its flushed flag and the key set is unchanged |
| PharserManager.PartitionStep | src/com/sprd/messaging/sms/commonphrase/model/PharserManager.java:109-122 | one item goes to at most one batch and is reset to normal when inserted or updated |
| PharserManager.BatchesPartition | src/com/sprd/messaging/sms/commonphrase/model/PharserManager.java:109-122 | the batches and the untouched items together account for every item exactly once |
| PharserManager.BatchMembership | src/com/sprd/messaging/sms/commonphrase/model/PharserManager.java:109-122 | every item lands in the batch its flag and id select |
| PharserManager.BatchFlags | src/com/sprd/messaging/sms/commonphrase/model/PharserManager.java:109-122 | deletions keep the delete flag; inserted and updated items are already reset to normal when batched |
| PharserManager.PharserManager.Partition | src/com/sprd/messaging/sms/commonphrase/model/PharserManager.java:109-122 | the loop leaves the map and the three batches as the specification folds say |
| PharserManager.PharserManager.WriteToDisk | src/com/sprd/messaging/sms/commonphrase/model/PharserManager.java:100-142 | the inserts are the insert batch sorted by row id; the updates are the update batch; a delete clause exists iff there are deletions; the map is flushed and must be reloaded |
| PharserManager.InsertData | src/com/sprd/messaging/sms/commonphrase/model/PharserManager.java:167-182 | the exchange sort leaves the array sorted by row id and a permutation of the input |
| PharserManager.BringSmallestTo | src/com/sprd/messaging/sms/commonphrase/model/PharserManager.java:171-175 | the inner pass leaves the smallest row id of the rest at position i, keeps the sorted prefix below everything after it, and only exchanges items |
| PharserManager.SortedInsertBatch | src/com/sprd/messaging/sms/commonphrase/model/PharserManager.java:125-127 | the bulk insert carries the insert batch sorted by row id, as a permutation of it |
| PharserManager.RowIdStrings | src/com/sprd/messaging/sms/commonphrase/model/PharserManager.java:203-214 | one id string per item |
| PharserManager.WhereClauseIds | src/com/sprd/messaging/sms/commonphrase/model/PharserManager.java:203-214 | the clause is `_id IN(...)` whose comma-separated ids parse back to the items' row ids, in order |
| PharserManager.OpenClauseStep | src/com/sprd/messaging/sms/commonphrase/model/PharserManager.java:206-211 | each item appends its id, preceded by a comma except for the first |
| PharserManager.PharserManager.ChangeWhere | src/com/sprd/messaging/sms/commonphrase/model/PharserManager.java:203-214 | the built string is the where clause of the items |
| PharserManager.TableProperties | src/com/sprd/messaging/sms/commonphrase/model/PharserManager.java:43-64 | the loaded map holds every row under its own id, the last row winning for a repeated id |
| PharserManager.PharserManager.LoadFromDatabase | src/com/sprd/messaging/sms/commonphrase/model/PharserManager.java:33-64 | an initialised store returns true and does nothing; otherwise a null cursor fails, an empty one clears the map and fails, and rows are loaded and mark the store initialised |
| FileUtil.NumberedNamesDistinct | src/com/android/messaging/util/FileUtil.java:46-48 | the 99 numbered names are pairwise different |
| FileUtil.TwoDigitsInjective | src/com/android/messaging/util/FileUtil.java:46-48 | the two-digit counter text differs for different counters |
| FileUtil.Candidates | src/com/android/messaging/util/FileUtil.java:46-55 | there are 99 candidate names |
| FileUtil.CandidatesProperties | src/com/android/messaging/util/FileUtil.java:46-55 | each candidate is a child of the directory with the numbered name, and all are distinct |
| FileUtil.FirstFree | src/com/android/messaging/util/FileUtil.java:46-55 | a found index is in range |
| FileUtil.FirstFreeFound | src/com/android/messaging/util/FileUtil.java:46-55 | the chosen candidate does not exist and every earlier one does |
| FileUtil.FirstFreeNone | src/com/android/messaging/util/FileUtil.java:46-55 | no candidate is chosen exactly when all 99 exist |
| FileUtil.FileTree.CreateNewFile | src/com/android/messaging/util/FileUtil.java:49-53 | creating a file in an existing directory adds just that file; otherwise an I/O error and no change |
| FileUtil.FileTree.GetNewFile | src/com/android/messaging/util/FileUtil.java:40-56 | the file created is the first free numbered candidate; null when all 99 are taken; an I/O error leaves the tree unchanged |
| FileUtil.WordRun | src/com/android/messaging/util/FileUtil.java:139-150 | the run is within the string |
| FileUtil.WordRunProperties | src/com/android/messaging/util/FileUtil.java:139-150 | the run consists of word characters and stops at the first other character |
| FileUtil.StripTypeSubtype | src/com/android/messaging/util/FileUtil.java:139-150 | on a type/subtype string the replaceFirst leaves exactly the non-empty subtype |
| FileUtil.ContentTypeToExtensionProperties | src/com/android/messaging/util/FileUtil.java:127-158 | case-insensitive; MOV gives its extension, MP4 its subtype, otherwise the MIME map's answer, else the subtype |
| FileUtil.ContentTypeToExtensionNull | src/com/android/messaging/util/FileUtil.java:127-158 | a null content type yields the MIME map's answer for null, or the empty string |
| FileUtil.FileNameFormatProperties | src/com/android/messaging/util/FileUtil.java:103-125 | an image type gets the image format; a video gets the quoted literal `'VID_'` before the generic format, any other type `'OTH_'`; so a video's format differs from an other type's |
| FileUtil.IsSameOrSubDirectory | src/com/android/messaging/util/FileUtil.java:235-251 | the walk up the parents answers true exactly when the canonical base is an ancestor-or-self of the canonical child; a resolution failure answers false |
| FileUtil.IsInPrivateDir | src/com/android/messaging/util/FileUtil.java:216-222 | true exactly for a file uri inside the data directory |
| FileUtil.FileTree.Delete | src/com/android/messaging/util/FileUtil.java:161-179 | File.delete removes a file or an empty directory and fails on anything else |
| FileUtil.FileTree.RemoveFileOrDirectoryExcept | src/com/android/messaging/util/FileUtil.java:166-179 | exactly the paths outside the root, and the excluded path with its ancestors and descendants below the root, survive, unchanged |
| FileUtil.FileTree.RemoveChildren | src/com/android/messaging/util/FileUtil.java:169-173 | the loop over the children removes exactly the paths below visited children that are not kept for the exclusion, and changes no kind |
| FileUtil.FileTree.RemoveFileOrDirectory | src/com/android/messaging/util/FileUtil.java:161-163 | everything at or below the root is deleted and nothing else changes |
| FileUtil.FileTree.MoveAllContentUnderDirectoryProceeds | src/com/android/messaging/util/FileUtil.java:184-190 | the move goes ahead exactly when both are directories and the target is not the source or inside it |
| FileUtil.AncestorsPresent | src/com/android/messaging/util/FileUtil.java:166-179 | in a consistent tree every ancestor of an entry exists and is a directory |
| FileUtil.NothingBelowMissing | src/com/android/messaging/util/FileUtil.java:166-179 | a missing root has nothing below it, so the delete is a no-op |
| FileUtil.NothingBelowFile | src/com/android/messaging/util/FileUtil.java:166-179 | a file has nothing below it and keeps nothing excluded |
| FileUtil.SubtreeShrinks | src/com/android/messaging/util/FileUtil.java:169-173 | each recursive call works on a strictly smaller subtree |
| FileUtil.ChildVisited | src/com/android/messaging/util/FileUtil.java:169-173 | after visiting one more child, exactly the kept paths below the visited children remain |
| FileUtil.DirectoryOutcome | src/com/android/messaging/util/FileUtil.java:167-178 | the root's own delete succeeds exactly when nothing was kept below it |
| FileUtil.RootOutcome | src/com/android/messaging/util/FileUtil.java:169-173 | the root keeps a child exactly when it holds the excluded path |
| PendingAttachment.PendingAttachmentData.constructor | src/com/android/messaging/datamodel/data/PendingAttachmentData.java:64-69 | a new attachment is PENDING and keeps its arguments |
| PendingAttachment.CreatePendingAttachmentData | src/com/android/messaging/datamodel/data/PendingAttachmentData.java:81-94 | requires a media type; a fresh PENDING attachment with the given fields |
| PendingAttachment.CreatePendingAttachmentDataForUri | src/com/android/messaging/datamodel/data/PendingAttachmentData.java:75-79 | no caption, unspecified sizes, not single-only |
| PendingAttachment.PendingAttachmentData.GetCurrentState | src/com/android/messaging/datamodel/data/PendingAttachmentData.java:96-98 | the state is one of the four |
| PendingAttachment.PendingAttachmentData.LoadAttachmentForDraft | src/com/android/messaging/datamodel/data/PendingAttachmentData.java:100-105 | a load starts only from PENDING, moving to LOADING; in any other state nothing happens |
| PendingAttachment.PendingAttachmentData.OnCancelled | src/com/android/messaging/datamodel/data/PendingAttachmentData.java:161-168 | a timed-out load is FAILED, and a still-bound draft removes the attachment |
| PendingAttachment.PendingAttachmentData.OnPostExecute | src/com/android/messaging/datamodel/data/PendingAttachmentData.java:171-194 | LOADED iff a part came back and the draft is updated with it; otherwise FAILED, and a still-bound draft is told and removes the attachment |
| PendingAttachment.RunProperties | src/com/android/messaging/datamodel/data/PendingAttachmentData.java:100-194 | any run of events keeps the state among the four, never returns to PENDING, and a finished load ignores later load requests |
| PendingAttachment.Parcel.ReadInt | src/com/android/messaging/datamodel/data/PendingAttachmentData.java:198-201 | reads the next int, or 0 at the end |
| PendingAttachment.PendingAttachmentData.WriteToParcel | src/com/android/messaging/datamodel/data/PendingAttachmentData.java:204-207 | appends the state to the parcel |
| PendingAttachment.PendingAttachmentData.FromParcel | src/com/android/messaging/datamodel/data/PendingAttachmentData.java:198-201 | the state is the next int of the parcel, unchecked |
| PendingAttachment.ParcelRoundTrip | src/com/android/messaging/datamodel/data/PendingAttachmentData.java:198-207 | writing then reading a parcel gives back the same state |
| ImageRequest.ImageRequestDescriptor.constructor | src/com/android/messaging/datamodel/media/ImageRequestDescriptor.java:119-135 | requires every size unspecified or positive; stores all eight arguments as given |
| ImageRequest.ImageRequestDescriptor.WithDesiredSize | src/com/android/messaging/datamodel/media/ImageRequestDescriptor.java:114-117 | unspecified source size, false flags and zero colours |
| ImageRequest.ImageRequestDescriptor.FullImage | src/com/android/messaging/datamodel/media/ImageRequestDescriptor.java:109-112 | all sizes unspecified, false flags and zero colours |
| ImageRequest.ImageRequestDescriptor.SetupDrm | src/com/android/messaging/datamodel/media/ImageRequestDescriptor.java:87-91 | sets the DRM flag, content type and data path together |
| ImageRequest.ImageRequestDescriptor.SetDrmType | src/com/android/messaging/datamodel/media/ImageRequestDescriptor.java:78-80 | sets the DRM flag only |
| ImageRequest.ImageRequestDescriptor.SetDrmContentType | src/com/android/messaging/datamodel/media/ImageRequestDescriptor.java:81-83 | sets the DRM content type only |
| ImageRequest.ImageRequestDescriptor.SetDrmDataPath | src/com/android/messaging/datamodel/media/ImageRequestDescriptor.java:84-86 | sets the DRM data path only |
| ImageRequest.ImageRequestDescriptor.SetDrmPreviewInPhotoViewActivity | src/com/android/messaging/datamodel/media/ImageRequestDescriptor.java:100-102 | sets the preview flag only |
| ImageRequest.ImageRequestDescriptor.ReportDrmEndKey | src/com/android/messaging/datamodel/media/ImageRequestDescriptor.java:137-139 | records the DRM end key only |
| ImageRequest.ImageRequestDescriptor.DrmKeyPart | src/com/android/messaging/datamodel/media/ImageRequestDescriptor.java:141-144 | the DRM part of the key is 0 unless the image is DRM |
| ImageRequest.KeyTextJoin | src/com/android/messaging/datamodel/media/ImageRequestDescriptor.java:145-151 | the key is five pieces joined by '|', the last being the static flag with the DRM end key glued on |
| ImageRequest.KeyPiecesAvoidDelimiter | src/com/android/messaging/datamodel/media/ImageRequestDescriptor.java:145-151 | no piece of the key contains the delimiter |
| ImageRequest.KeyTextInjective | src/com/android/messaging/datamodel/media/ImageRequestDescriptor.java:140-152 | equal keys mean equal desired sizes, flags, background colour and DRM part, despite the missing delimiter before the DRM part |
| ImageRequest.SameKey | src/com/android/messaging/datamodel/media/ImageRequestDescriptor.java:140-152 | two requests share a key iff they agree on the desired size, crop flag, background colour, static flag and DRM part; source size and stroke colour never matter |
| NoConfirmation.GetText | src/com/android/messaging/datamodel/NoConfirmationSmsSendService.java:167-179 | the string extra when present; only when it is absent, the RemoteInput value |
| NoConfirmation.ParseIntent | src/com/android/messaging/datamodel/NoConfirmationSmsSendService.java:64-91 | the request is accepted iff the action is respond-via-message and there are extras; recipients come from the data uri, texts from getText, the subscription defaults to -1 |
| NoConfirmation.RecipientCountBounds | src/com/android/messaging/datamodel/NoConfirmationSmsSendService.java:99-106 | the count is at most one more than the commas, and exactly that when the list does not end with a comma |
| JavaLang.JavaSplitCount | src/com/android/messaging/datamodel/NoConfirmationSmsSendService.java:101 | split yields at most one piece more than there are commas, exactly that many when the list does not end in a comma, and strictly fewer when it does |
| JavaLang.SplitEndsEmpty | src/com/android/messaging/datamodel/NoConfirmationSmsSendService.java:101 | a list ending in a comma splits, before trailing empties are dropped, into at least two pieces whose last is empty |
| NoConfirmation.DraftFor | src/com/android/messaging/datamodel/NoConfirmationSmsSendService.java:145-160 | an MMS draft iff the request requires MMS, for the request's conversation, sender and text |
| NoConfirmation.DecideTable | src/com/android/messaging/datamodel/NoConfirmationSmsSendService.java:93-163 | no destination does nothing; too many recipients only shows the toast; showUI only opens the list; an empty message under a negative flag inserts nothing; a message is inserted iff every check passes, by recipients or as a draft, always followed by the notification update |
| NoConfirmation.HandleIntentRejects | src/com/android/messaging/datamodel/NoConfirmationSmsSendService.java:64-78 | a wrong action or missing extras has no effect |
| NoConfirmation.OnHandleIntent | src/com/android/messaging/datamodel/NoConfirmationSmsSendService.java:59-165 | the handler with its counting loop has exactly the effects of the decision table |

## Left out

- Threads: `wait`/`notifyAll`, the concurrent map's thread safety and `SystemClock` are not modelled. Callbacks are sequential calls, and time is a sequence of clock readings supplied by the caller.
- Telephony calls are parameters:
  - `SmsManager.divideMessage`, `sendTextMessage` and `sendMultipartTextMessage`;
  - `PhoneNumberUtils.stripSeparators`;
  - the email and alias tests;
  - the MmsConfig getters;
  - whether send reports are enabled.

  The sends are returned as a list of calls. The exception one of them may throw, with the index of the throwing call, is an input.
- `PendingIntent` and `Intent` construction, toasts and their strings are left out. Status intents are values; toasts are returned notices.
- `String.toLowerCase` and `equalsIgnoreCase` cover ASCII letters only, not locale or full Unicode case mapping.
- SmsSender.SmsSender.SendInternal: a send call that throws counts as not made; whether SmsManager queued anything before throwing is not modelled.
- SmsSender.ReplayTally: stated for tallies whose level is at least NONE, which every SendResult satisfies. The same goes for SmsSender.ReplayOrderIndependent.
- ItemData is a value. Entries shared between the map and the returned list are not modelled, so neither is the `swapObject` aliasing. Items are stored with resource id 0 and array index 0. `setType(Integer)` stores the type code.
- The `changeData`/`updateData` column mapping is not part of this model. The ContentResolver, `bulkInsert`, the SQLite transaction of `bulkUpdate` and cursor parsing are left out: a cursor is a sequence of rows. `reloadFromDB` is left out too.
- The static `LoadFromDatabase(intentType)` query and `intentArray` are left out: they are pure database reads.
- The iteration order of the map's key set is a parameter, required to enumerate the keys once each.
- `moveAllContentUnderDirectory`: only its guard is modelled, not the moves, because `Files.move` is file-system I/O.
- The `DocumentsContract` overload of `getNewFile` and the public `getNewFile(File, String)` wrapper are left out: they are framework calls.
- The timestamp that `SimpleDateFormat` produces is a parameter, assumed to contain no format specifiers.
- The ContentType constants and predicates, the `MimeTypeMap` lookup and canonical-path resolution are parameters. ContentType is not part of this model.
- `isInDataDir` is left out: it is the same ancestor test against another directory.
- The body of the background load task is left out:
  - the DRM session;
  - scratch-space persistence;
  - the global attachment map;
  - the `double` attachment size.

  Its outcome is the input to the callbacks. The parcel fields written by MessagePartData are not part of this model.
- PendingAttachment.PendingAttachmentData.FromParcel: the state read from a parcel is not checked to be one of the four, as in the source.
- ImageRequestDescriptor's `setDrmDecryptHandle`, `getDrmLockedState` (a DRM session query) and the abstract `buildSyncMediaRequest` are left out.
- The service's toast thread, logging and activity start are returned as effects. `MmsUtils.getSmsRecipients` is a parameter.
