# AI-Nexus backend: a verified model of its service rules

This project models the rule-bearing core of the AI-Nexus NestJS/TypeORM backend and proves properties of it in Dafny.

The main part is the threaded comment subsystem that announcements and questions share. It covers:
- adding a reply under a parent of the same thread;
- owner-or-admin editing and deletion;
- deletion of a whole reply tree: a fixed-point loop computes the descendant closure, then a second loop deletes leaves first;
- one like per user and comment;
- one pin per user and thread;
- the like counts and `likedByCurrentUser` flags that listings carry.

Around it sit the smaller services:
- **Workflows**: tag resolution by id and by trimmed title, and the label rules.
- **Courses**: the free/paid amount rule.
- **Auth**: the account state machine (verification and reset tokens with expiry, banned and unverified users).
- **Users**: email and username uniqueness, partial updates, and the profile endpoints' role/status stripping.
- **Languages**: soft delete.
- **Tutorials**: lookup by UUID or by slug.

It also covers the pure helpers:
- the Cloudinary public-id extraction;
- the e-mail regex;
- bearer-token extraction and the optional JWT guard;
- image URL building;
- the database URL, SSL and `synchronize` settings.

## How the model is organised

- **Repository tables.** Each table is a `map` from id to record, held in a field of a service `class`. A method that writes the table says in its `ensures` what the new table is, in terms of pure functions over the records. `Valid()` states the table invariants:
  - emails and usernames are unique;
  - token and expiry are set together;
  - tag titles are unique;
  - parents are older than their replies.
- **Errors.** Exceptions become `Result` values: `NotFound`, `BadRequest` or `Unauthorized`, with the source's exact message.
- **Foreign calls are parameters.** This covers bcrypt, random tokens, `Date.now`, JWT signing and verifying, and whether a mail was sent.
- **Absent request properties.** An `undefined` property is `None`, and JavaScript truthiness of an optional string is `Truthy`.
- **One component for two services.** Announcements and questions behave the same, so a single class models both. It is parameterised by `ThreadKind`, which supplies the nouns used in messages. Rows below cite the announcement service; the question service has the same code at the lines named in the row.
- **Acyclicity.** Every comment gets a creation time from a strictly increasing clock, and a reply can only be added under an existing parent. So a parent is always older than its replies (`ParentsPrecede`). That gives acyclicity and guarantees that the leaves-first loop always finds a leaf.

## Model

| member | source | states |
|---|---|---|
| `Wrappers.FreshKeyExists` | src/user/users.entity.ts:15-16 | some id is never in use, so a generated primary key can always be fresh |
| `Strings.Contains` | src/app.module.ts:43 | `includes`: true exactly when the word occurs at some position |
| `Strings.TrimStart` | src/workflow/workflows.service.ts:78 | the result is a suffix, everything dropped is whitespace, and it starts with a non-space |
| `Strings.TrimEnd` | src/workflow/workflows.service.ts:78 | the result is a prefix, everything dropped is whitespace, and it ends with a non-space |
| `Strings.TrimEmptyIffBlank` | src/workflow/workflows.service.ts:78 | `trim()` is empty exactly when every character is whitespace |
| `Strings.TrimIsInfix` | src/workflow/workflows.service.ts:82 | the trimmed title is a contiguous slice of the title |
| `Strings.Split` | src/jwt/optional-jwt-auth.guard.ts:31 | `split(c)` gives at least one piece, no piece contains the separator, and the first piece is the text before the first separator |
| `Strings.SplitFree` | src/jwt/optional-jwt-auth.guard.ts:31 | text without the separator splits into itself alone |
| `Strings.SplitCons` | src/jwt/optional-jwt-auth.guard.ts:31 | splitting `w + sep + rest` gives `w` followed by the pieces of `rest` |
| `Strings.SplitJoin` | src/service/cloudinary.service.ts:84 | splitting separator-free pieces joined by the separator gives the pieces back |
| `Strings.JoinSplit` | src/service/cloudinary.service.ts:84 | joining the pieces of a split gives the original string back |
| `AuthUtils.WellFormedIsPattern` | src/utils/auth.utils.ts:6 | a string with one `@`, no whitespace and a `.` inside the domain matches `^[^\s@]+@[^\s@]+\.[^\s@]+$` |
| `AuthUtils.PatternCharacter` | src/utils/auth.utils.ts:6 | in a matching string, every character except the one `@` is neither whitespace nor `@` |
| `AuthUtils.PatternIsWellFormed` | src/utils/auth.utils.ts:6 | a matching string has exactly one `@` with text before it, no whitespace, and a `.` that is neither first nor last after the `@` |
| `AuthUtils.PatternIffWellFormed` | src/utils/auth.utils.ts:6 | the regex accepts a string if and only if it has the three properties above |
| `AuthUtils.ValidateEmail` | src/utils/auth.utils.ts:4-8 | false for undefined or empty input; otherwise true exactly when the regex matches |
| `AuthUtils.AcceptedAddressShape` | src/utils/auth.utils.ts:6 | an accepted address has exactly one `@` that is not first, no whitespace, and a `.` strictly inside the domain |
| `AuthUtils.RolesPartition` | src/utils/auth.utils.ts:10-16 | every role is exactly one of `isAdmin` and `isUser` |
| `UserRecords.WithoutPassword` | src/user/users.controller.ts:49 | the public view keeps every profile field of the user |
| `UserRecords.WithoutPasswordLosesOnlyPassword` | src/user/users.controller.ts:49 | two users with the same public view differ at most in their password |
| `UserRecords.FindBy` | src/auth/auth.service.ts:121-133 | `findOne({ where: { column: value } })` returns a row whose column holds the value, or `None` only when no row does |
| `UserRecords.UniqueLookup` | src/user/users.entity.ts:18-28 | with unique email and username columns, a lookup by either matches at most one user |
| `UserRecords.StoreKeepsUnique` | src/user/users.entity.ts:18-28 | saving a user with unchanged email and username keeps both columns unique |
| `UserRecords.InsertKeepsUnique` | src/user/users.entity.ts:18-28 | inserting a user whose email and username are both unused keeps both columns unique |
| `AppConfig.Synchronize` | src/app.module.ts:30-35 | `synchronize` is true iff NODE_ENV is set, non-empty and not `production` |
| `AppConfig.SslFor` | src/app.module.ts:36-51 | SSL is off iff the URL is empty or mentions `localhost` or `127.0.0.1`; otherwise it is on with `rejectUnauthorized: false` |
| `AppConfig.SkipValue` | src/app.module.ts:24 | `[^&]*` consumes a suffix and stops at the next `&` or at the end |
| `AppConfig.StripSslMode` | src/app.module.ts:24 | the global replace never lengthens the URL |
| `AppConfig.TrimSeparator` | src/app.module.ts:26 | one trailing `?` or `&` is removed, and anything else is left as is |
| `AppConfig.StripKeepsFront` | src/app.module.ts:24 | any `&`-free prefix of the replaced URL was already a prefix of the original, so the replace keeps the front in order |
| `AppConfig.ConsKeepsClean` | src/app.module.ts:24 | a character put before an sslmode-free string keeps it sslmode-free unless it starts a new `?sslmode=` or `&sslmode=` |
| `AppConfig.StripRemovesSslMode` | src/app.module.ts:24 | after the replace no `?sslmode=` or `&sslmode=` is left |
| `AppConfig.StripKeepsCleanUrl` | src/app.module.ts:24 | the replace leaves an sslmode-free URL unchanged |
| `AppConfig.SkipValueStops` | src/app.module.ts:24 | a parameter value runs exactly up to the next `&` |
| `AppConfig.StripAfterCleanPrefix` | src/app.module.ts:24 | an sslmode-free front is kept character for character by the replace |
| `AppConfig.StripParameter` | src/app.module.ts:24 | one `?sslmode=v` or `&sslmode=v` parameter is removed with its whole value, and the front and everything from the next `&` on are kept |
| `AppConfig.TrimKeepsClean` | src/app.module.ts:26 | trimming the trailing separator cannot bring an sslmode parameter back |
| `AppConfig.CleanUrl` | src/app.module.ts:20-28 | the connection URL passed to TypeORM carries no sslmode parameter |
| `AppConfig.CleanUrlKeepsCleanUrl` | src/app.module.ts:20-28 | a URL without sslmode and without a trailing separator is passed through unchanged |
| `AppConfig.CleanUrlDropsSslMode` | src/app.module.ts:20-28 | `base?sslmode=v` becomes `base` |
| `AppConfig.CleanUrlKeepsLaterParameters` | src/app.module.ts:20-28 | `base?sslmode=v&rest` becomes `base&rest`: the parameters after sslmode are kept, but the `?` goes with the removed parameter |
| `ImageFiles.FileToRemoveOnUpdate` | src/course/courses.service.ts:63-76 | the old image is unlinked exactly when a non-empty new image is sent and the old one is a non-empty path starting with neither `data:` nor `http` |
| `ImageFiles.FileToRemoveOnDelete` | src/course/courses.service.ts:116-130 | on delete, the image is unlinked exactly when it is a non-empty local path |
| `ImageFiles.RemoteImagesAreKept` | src/course/courses.service.ts:66 | an `http` or `data:` image is never unlinked |
| `ImageFiles.NoNewImageKeepsFile` | src/course/courses.service.ts:64 | an update without a new image unlinks nothing |
| `ImageUrls.BaseUrl` | src/course/courses.controller.ts:45 | the base URL is BACKEND_URL when set and non-empty, else `http://localhost:3000` |
| `ImageUrls.TransformImageUrl` | src/course/courses.controller.ts:51-63 | no or empty path gives undefined; `http://`, `https://` and `data:` paths come back unchanged; any other path is put after the base URL |
| `ImageUrls.UploadPath` | src/course/courses.controller.ts:131 | an uploaded file is stored under `/assets/course/` followed by its file name |
| `ImageUrls.StoredImage` | src/course/courses.controller.ts:186 | an upload replaces whatever image the request carried; without one the request's image is kept |
| `ImageUrls.UploadIsLocal` | src/course/courses.controller.ts:131 | an uploaded image is answered under the base URL, and it is a local file that update and delete unlink |
| `ImageUrls.TransformIdempotent` | src/course/courses.controller.ts:51-63 | with an `http(s)` base, transforming an answered URL again changes nothing |
| `JwtGuard.ExtractToken` | src/jwt/optional-jwt-auth.guard.ts:30-33 | no header gives no token; a token is non-empty and space-free; a token is returned exactly when the header has a non-empty second space-separated piece, and it is that piece |
| `JwtGuard.TokenAfterAnyScheme` | src/jwt/optional-jwt-auth.guard.ts:31-32 | `scheme token` gives `token` whatever the scheme word is |
| `JwtGuard.NoSpaceNoToken` | src/jwt/optional-jwt-auth.guard.ts:31-32 | a header without a space gives no token |
| `JwtGuard.EmptyTokenIsNull` | src/jwt/optional-jwt-auth.guard.ts:32 | `scheme ` with nothing after the space gives no token |
| `JwtGuard.OptionalJwtAuthGuard.CanActivate` | src/jwt/optional-jwt-auth.guard.ts:9-28 | always allows; a verifying token sets `request.user`, a failing one clears it, and no token leaves it as it was |
| `Cloudinary.FindIndex` | src/service/cloudinary.service.ts:87 | `findIndex` returns the first position of the segment, or -1 (`None`) exactly when it is absent |
| `Cloudinary.FolderParts` | src/service/cloudinary.service.ts:110-111 | the filter keeps exactly the segments that are neither `v<digits>` nor all digits |
| `Cloudinary.FolderPartsKeepsFolders` | src/service/cloudinary.service.ts:110-111 | folders that are not version or number segments are all kept, in order |
| `Cloudinary.FolderPartsDropsSkipped` | src/service/cloudinary.service.ts:110-111 | version and number segments are all dropped |
| `Cloudinary.FolderPartsAppend` | src/service/cloudinary.service.ts:110-111 | the filter distributes over concatenation, so with the two lemmas above it keeps exactly the other segments, in their order |
| `Cloudinary.PublicIdOfPath` | src/service/cloudinary.service.ts:95-115 | there is no public id exactly when nothing follows `upload` |
| `Cloudinary.PublicId` | src/service/cloudinary.service.ts:76-115 | an empty or non-`http` URL, or one without an `upload` segment, gives nothing to delete; a public id implies an `upload` segment that is not the last |
| `Cloudinary.FindIndexAt` | src/service/cloudinary.service.ts:87 | the first occurrence is the one `findIndex` reports |
| `Cloudinary.PublicIdAfterUpload` | src/service/cloudinary.service.ts:84-95 | the public id depends only on the segments after the first `upload` |
| `Cloudinary.PathWithFolders` | src/service/cloudinary.service.ts:103-115 | a version, folders and `name.ext` give `folders/name` |
| `Cloudinary.PathWithoutFolder` | src/service/cloudinary.service.ts:103-115 | a version and `name.ext` give `name` |
| `Cloudinary.PublicIdWithFolders` | src/service/cloudinary.service.ts:76-115 | a full Cloudinary upload URL with folders yields `folder/…/name`, without the version or the extension |
| `Cloudinary.PublicIdWithoutFolder` | src/service/cloudinary.service.ts:76-115 | an upload URL without folders yields the bare file name |
| `Cloudinary.NothingAfterUpload` | src/service/cloudinary.service.ts:97-100 | a URL ending at its `upload` segment has nothing to delete |
| `CommentStore.Children` | src/announcement/announcements.service.ts:380-386 | the replies found in one pass of the closure loop are comments of the store |
| `CommentStore.DescendantInClosedSet` | src/announcement/announcements.service.ts:374-388 | every descendant of the root lies in any reply-closed set that contains the root |
| `CommentStore.ClosureIsLeast` | src/announcement/announcements.service.ts:374-388 | the deletion set is the least reply-closed set containing the target |
| `CommentStore.ClosureIsUnique` | src/announcement/announcements.service.ts:374-388 | there is only one descendant closure of a comment |
| `CommentStore.AncestorsAreOlder` | src/announcement/announcements.service.ts:224-233 | since a parent must exist before its reply, every ancestor is in the same thread and strictly older |
| `CommentStore.NoCycles` | src/announcement/announcements.service.ts:224-233 | no comment is its own ancestor, so parent links are acyclic |
| `CommentStore.ClosureStaysInThread` | src/announcement/announcements.service.ts:374-388 | deleting a comment only removes comments of its own thread |
| `CommentStore.NewestExists` | src/announcement/announcements.service.ts:397-412 | a non-empty set of comments has a newest one |
| `CommentStore.NewestIsLeaf` | src/announcement/announcements.service.ts:397-412 | the newest remaining comment is nobody's parent, so every pass of the leaves-first loop deletes something |
| `CommentStore.RemoveClosedKeepsParents` | src/announcement/announcements.service.ts:396-412 | removing a reply-closed set leaves no orphan behind |
| `CommentStore.ReachReplies` | src/announcement/announcements.service.ts:380-386 | each pass keeps every collected id reachable from the target by parent links |
| `CommentStore.ReachedIsDescendant` | src/announcement/announcements.service.ts:374-388 | the closure loop never collects a comment outside the target's subtree |
| `CommentStore.SubsetNoLarger` | src/announcement/announcements.service.ts:376-388 | the collected set never outgrows the store, which bounds the closure loop |
| `CommentStore.GrowthShrinksRest` | src/announcement/announcements.service.ts:376-388 | each pass that adds ids brings the loop closer to its end |
| `CommentStore.AddReplies` | src/announcement/announcements.service.ts:378-387 | one pass adds exactly the replies of the collected ids, and it adds nothing exactly when the set is closed |
| `CommentStore.ParentsWithin` | src/announcement/announcements.service.ts:398-402 | the ids named as parents are a subset of the remaining ids |
| `CommentStore.DeletionStart` | src/announcement/announcements.service.ts:396 | the leaves-first loop starts from the whole closure and the untouched store |
| `CommentStore.DeleteOneLeaf` | src/announcement/announcements.service.ts:403-411 | deleting an id that no remaining comment names as parent keeps the loop's bookkeeping exact |
| `CommentStore.PassFindsLeaf` | src/announcement/announcements.service.ts:397-412 | while ids remain, a pass finds at least one leaf among them |
| `CommentStore.OneRowPerLiker` | src/announcement/announcements.service.ts:114-141 | like rows of one comment correspond one-to-one to users |
| `CommentStore.RowsCountLikers` | src/announcement/announcements.service.ts:114-141 | the number of like rows on a comment is its number of likers |
| `CommentStore.GroupedLikeCounts` | src/announcement/announcements.service.ts:117-127 | the grouped count query has an entry exactly for the listed comments that have likes |
| `CommentStore.LikedByUser` | src/announcement/announcements.service.ts:128-135 | the liked-by-user set only holds listed comments |
| `CommentStore.ToView` | src/announcement/announcements.service.ts:136-140 | an entry carries the comment's fields, its like count and its liked flag |
| `CommentStore.GroupedCountIsLikers` | src/announcement/announcements.service.ts:117-140 | the grouped count of a listed comment is its number of likers, 0 when it has none |
| `CommentStore.EnrichCommentsWithLikes` | src/announcement/announcements.service.ts:114-141 | one payload per row, in order, with the row's fields; `likeCount` is the number of likers; `likedByCurrentUser` holds iff a user is given and liked it |
| `CommentStore.LikeIsIdempotent` | src/announcement/announcements.service.ts:423-445 | a second like adds nothing and answers "already liked" with liked=true; only the caller's row can change; a failed like changes nothing |
| `CommentStore.UnlikeAbsentIsNoOp` | src/announcement/announcements.service.ts:447-458 | unliking an absent like is no error, answers liked=false and changes nothing |
| `CommentStore.ToggleLikeFlips` | src/announcement/announcements.service.ts:460-470 | toggling flips the presence of exactly the caller's like and reports the new state; toggling twice restores the likes |
| `CommentStore.PinIsIdempotent` | src/announcement/announcements.service.ts:472-499 | a second pin adds nothing and answers "already pinned"; only the caller's pin can change |
| `CommentStore.UnpinAbsentFails` | src/announcement/announcements.service.ts:501-512 | unpinning fails with NotFound exactly when the pin is absent, and then changes nothing |
| `CommentStore.TogglePinFlips` | src/announcement/announcements.service.ts:514-524 | toggling flips exactly the caller's pin, and fails only when pinning is impossible |
| `CommentStore.IsPinned` | src/announcement/announcements.service.ts:73-80 | `isPinned` is absent without a user, and true iff that user pinned the thread (question service lines 60-65) |
| `Comments.CommentService.constructor` | src/announcement/announcements.service.ts:14-26 | the service starts with empty tables and a given user table |
| `Comments.CommentService.CreateThread` | src/announcement/announcements.service.ts:157-173 | a new thread starts with viewCount 0 under a fresh id, with a "created successfully" message (question service lines 115-129) |
| `Comments.CommentService.IncrementViewCount` | src/announcement/announcements.service.ts:143-155 | a missing thread fails NotFound; otherwise viewCount rises by exactly 1 and nothing else changes |
| `Comments.CommentService.AddComment` | src/announcement/announcements.service.ts:211-259 | fails NotFound, changing nothing, for a missing thread, a missing user, a missing parent or a parent in another thread; it succeeds exactly when none of these holds, and then adds exactly one comment, under the given parent or with no parent when none is given (question service lines 161-209) |
| `Comments.CommentService.UpdateComment` | src/announcement/announcements.service.ts:314-356 | only the author or an Admin succeeds, and then only `content` changes; anyone else gets NotFound and nothing changes (question service lines 258-290) |
| `Comments.CommentService.CollectDescendants` | src/announcement/announcements.service.ts:373-388 | the fixed-point loop ends with exactly the descendant closure of the target (question service lines 306-320) |
| `Comments.CommentService.DeleteLeaves` | src/announcement/announcements.service.ts:403-411 | one pass deletes exactly the leaves it found, keeping the leaves-first bookkeeping (question service lines 327-342) |
| `Comments.CommentService.DeleteLeavesFirst` | src/announcement/announcements.service.ts:396-412 | the loop deletes exactly the closure, each comment after all of its replies, and nothing else |
| `Comments.CommentService.DeleteTree` | src/announcement/announcements.service.ts:373-412 | the closure is computed, exactly the likes on it are removed, then exactly its comments, leaves first |
| `Comments.CommentService.DeleteComment` | src/announcement/announcements.service.ts:358-421 | only the author or an Admin succeeds; on success exactly the descendant closure and its likes go, leaves first; otherwise NotFound and nothing changes (question service lines 292-345) |
| `Comments.CommentService.LikeComment` | src/announcement/announcements.service.ts:423-445 | the like table and reply are those of the like step, which is proved idempotent (question service lines 347-369) |
| `Comments.CommentService.UnlikeComment` | src/announcement/announcements.service.ts:447-458 | the like table and reply are those of the unlike step (question service lines 371-382) |
| `Comments.CommentService.ToggleCommentLike` | src/announcement/announcements.service.ts:460-470 | the like table and reply are those of the toggle step, which is proved to flip the like (question service lines 384-394) |
| `Comments.CommentService.Pin` | src/announcement/announcements.service.ts:472-499 | the pin table and reply are those of the pin step, which is proved idempotent (question service lines 396-421) |
| `Comments.CommentService.Unpin` | src/announcement/announcements.service.ts:501-512 | the pin table and reply are those of the unpin step (question service lines 423-434) |
| `Comments.CommentService.TogglePin` | src/announcement/announcements.service.ts:514-524 | the pin table and reply are those of the toggle step, which is proved to flip the pin (question service lines 436-445) |
| `Comments.CommentService.RowsOf` | src/announcement/announcements.service.ts:267-271 | the rows fetched for a list of ids, in order |
| `Comments.CommentService.GetComments` | src/announcement/announcements.service.ts:261-312 | a missing thread fails NotFound; otherwise one entry per comment of the thread, newest first, each with its like count and the caller's liked flag |
| `Comments.CommentService.GetById` | src/announcement/announcements.service.ts:61-83 | the thread with one entry per comment, in the given order, carrying that comment's content, author and parent, its number of likes, and `likedByCurrentUser` true exactly when a logged-in user liked it; `isPinned` absent without a user and true iff the user pinned it (question service lines 49-67) |
| `Comments.ViewsCoverRows` | src/announcement/announcements.service.ts:306-311 | every fetched comment has an entry in the answer |
| `Comments.NoCommentsListsNothing` | src/question/questions.service.ts:224-226 | a thread without comments lists `[]` |
| `Comments.ValidHasNoCycles` | src/announcement/announcements.service.ts:330 | since updates only change `content`, the service's comments never form a parent cycle |
| `Workflows.TitleSet` | src/workflow/workflows.service.ts:76-96 | the trimmed non-blank titles never include the empty title |
| `Workflows.Found` | src/workflow/workflows.service.ts:66-68 | `find({ id: In(tagIds) })` returns exactly the known ids among those asked for |
| `Workflows.Elems` | src/workflow/workflows.service.ts:99-103 | the tags set on the workflow are exactly the collected ids |
| `Workflows.MatchCount` | src/workflow/workflows.service.ts:69-71 | the count check fails exactly when an id is unknown or repeated |
| `Workflows.CollectStep` | src/workflow/workflows.service.ts:92-94 | appending a title's tag unless already listed keeps the list equal to the ids plus the tags of the titles seen |
| `Workflows.TitleSetStep` | src/workflow/workflows.service.ts:77-78 | a blank title adds nothing to the named titles, and a non-blank one adds its trimmed text |
| `Workflows.LabelOnCreate` | src/workflow/workflows.service.ts:51-59 | a truthy labelId naming an existing label is kept; anything else leaves the workflow without a label |
| `Workflows.LabelOnUpdate` | src/workflow/workflows.service.ts:149-163 | an absent labelId keeps the label, a `null` or empty one clears it (the intended behaviour; see Findings), an existing one replaces it, and an unknown one keeps the old label |
| `Workflows.LabelStoredAsWritten` | src/workflow/workflows.service.ts:149-163 | the label the row keeps as the service is written: a `null` or empty labelId leaves the stored label, since `undefined` is not saved; otherwise as `LabelOnUpdate` |
| `Workflows.RemovedLabelIsKept` | src/workflow/workflows.service.ts:158-161 | a request to drop a label keeps it as written, while the intended update leaves no label |
| `Workflows.OrUndefined` | src/workflow/workflows.service.ts:44-45 | an empty description or image is stored as undefined |
| `Workflows.NewWorkflow` | src/workflow/workflows.service.ts:42-59 | the new workflow's title, description, image and label |
| `Workflows.ApplyFields` | src/workflow/workflows.service.ts:138-146 | each defined property replaces its field, and every other field is kept |
| `Workflows.TagFor` | src/workflow/workflows.service.ts:81-89 | the tag of a trimmed title is reused when one exists, otherwise exactly one new tag is created; titles stay unique |
| `Workflows.WalkStart` | src/workflow/workflows.service.ts:62-73 | the title loop starts from the given tag ids |
| `Workflows.WalkBlank` | src/workflow/workflows.service.ts:78 | a skipped title keeps the loop invariant |
| `Workflows.WalkTitle` | src/workflow/workflows.service.ts:80-94 | one non-blank title keeps the loop invariant |
| `Workflows.WalkDone` | src/workflow/workflows.service.ts:77-96 | at the end of the loop the tag table has grown by exactly the new titles and the id list is complete and duplicate-free |
| `Workflows.CollectTitle` | src/workflow/workflows.service.ts:78-94 | one iteration of the title loop keeps the loop invariant |
| `Workflows.CollectTitleTags` | src/workflow/workflows.service.ts:76-96 | the loop adds one tag per new trimmed title, keeps titles unique, and collects every given id plus the tag of every non-blank title, without duplicates |
| `Workflows.WorkflowService.constructor` | src/workflow/workflows.service.ts:14-21 | the service starts with no workflows and the given labels and tags |
| `Workflows.WorkflowService.GetById` | src/workflow/workflows.service.ts:30-39 | the stored workflow, or NotFound exactly when the id is missing |
| `Workflows.WorkflowService.ResolveTags` | src/workflow/workflows.service.ts:62-104 | fails NotFound, touching no tag, exactly when an id is unknown or repeated; otherwise the tag table grows by the new titles and the ids are complete and duplicate-free |
| `Workflows.WorkflowService.Create` | src/workflow/workflows.service.ts:41-111 | a bad tag-id list fails before anything is written; otherwise one new workflow with its fields, its label rule and exactly the resolved tags |
| `Workflows.WorkflowService.Update` | src/workflow/workflows.service.ts:113-219 | NotFound for a missing id; only defined fields change; label as in `LabelOnUpdate`, the intended behaviour (see Findings); tags untouched unless tagIds or tagTitles is given, and then exactly the resolved ones, possibly none; a bad id list changes nothing |
| `Workflows.WorkflowService.Delete` | src/workflow/workflows.service.ts:221-244 | NotFound for a missing id; otherwise only that row goes and its local image file is named for removal |
| `Workflows.NoTagsNamedClearsTags` | src/workflow/workflows.service.ts:209-211 | tags given but naming nothing leave the workflow with no tags |
| `Workflows.TitleTagIncluded` | src/workflow/workflows.service.ts:92-94 | every non-blank title ends up among the workflow's tags as the tag of its trimmed text |
| `Workflows.ExistingTitlesCreateNothing` | src/workflow/workflows.service.ts:85-89 | titles that all name existing tags create no tag |
| `Courses.NewCourse` | src/course/courses.service.ts:32-55 | freeOrPaid defaults to false and level to Beginner; the amount is stored only for a paid course with a non-zero amount, else 0; a free course costs 0 |
| `Courses.UpdateKeepsFreeIsZero` | src/course/courses.service.ts:89-98 | update keeps "not paid implies amount 0" |
| `Courses.AmountNeedsPaidFlag` | src/course/courses.service.ts:96-98 | an amount sent without `freeOrPaid: true` in the same request is stored as 0, even on a paid course |
| `Courses.PriceKeptWithoutAmount` | src/course/courses.service.ts:89-98 | a request with neither amount nor flag keeps the price and the flag |
| `Courses.EmptyImageClears` | src/course/courses.service.ts:85-88 | an empty image takes the image off the course; every other field is as if no image had been sent |
| `Courses.StoredAsWritten` | src/course/courses.service.ts:85-103 | the row stored as the service is written: the updated course, except that an empty image leaves the stored path, since `undefined` is not saved |
| `Courses.EmptyImageIsKept` | src/course/courses.service.ts:85-103 | a course sent an empty image keeps its image in the row as written, which differs from the intended update |
| `Courses.AssignFields` | src/course/courses.service.ts:78-101 | the course after the field assignments of `update` |
| `Courses.CourseService.constructor` | src/course/courses.service.ts:13-16 | the service starts with no courses |
| `Courses.CourseService.GetById` | src/course/courses.service.ts:24-30 | the stored course, or NotFound exactly when the id is missing |
| `Courses.CourseService.Create` | src/course/courses.service.ts:32-55 | one new course as `NewCourse` builds it, under a fresh id; the table keeps "free implies amount 0" |
| `Courses.CourseService.Update` | src/course/courses.service.ts:57-108 | NotFound for a missing id; otherwise the course becomes its updated version; `''` clears the image (the intended behaviour; see Findings); the amount rule holds; the old local image is named for removal only when a new one is sent |
| `Courses.CourseService.Delete` | src/course/courses.service.ts:110-135 | NotFound for a missing id; otherwise only that row goes and its local image is named for removal |
| `Languages.Revised` | src/language/language.service.ts:71-76 | update replaces only the defined title and deleted flag, and an empty update changes nothing |
| `Languages.LanguageService.constructor` | src/language/language.service.ts:9-12 | the service starts with no languages |
| `Languages.LanguageService.GetAll` | src/language/language.service.ts:14-19 | exactly the languages not soft-deleted |
| `Languages.LanguageService.GetAllForAdmin` | src/language/language.service.ts:21-25 | every language, deleted or not, including all that `getAll` lists |
| `Languages.LanguageService.GetById` | src/language/language.service.ts:27-35 | found only when present and not deleted, else NotFound |
| `Languages.LanguageService.GetByIdForAdmin` | src/language/language.service.ts:37-45 | found whenever present, deleted or not |
| `Languages.LanguageService.Create` | src/language/language.service.ts:47-59 | a new language under a fresh id, with deleted defaulting to false |
| `Languages.LanguageService.Update` | src/language/language.service.ts:61-82 | finds deleted languages too, so it can restore one; NotFound only for a missing id |
| `Languages.LanguageService.Delete` | src/language/language.service.ts:84-94 | soft: the record stays with deleted=true; a missing or already-deleted language fails NotFound, so a second delete fails |
| `Tutorials.LowerChar` | src/tutorial/tutorials.service.ts:21 | ASCII case folding of one character |
| `Tutorials.Lower` | src/tutorial/tutorials.service.ts:21 | case folding of every character |
| `Tutorials.UuidIgnoresCase` | src/tutorial/tutorials.service.ts:21 | the `/i` UUID test gives the same answer for a string and its lower case |
| `Tutorials.CreatedTexts` | src/tutorial/tutorials.service.ts:42-51 | an omitted optional text column is stored as null, a given one as given |
| `Tutorials.PatchedTexts` | src/tutorial/tutorials.service.ts:68-77 | a defined text column is replaced, and an undefined one is kept |
| `Tutorials.PublishedAt` | src/tutorial/tutorials.service.ts:54 | a falsy publishedAt is stored as null |
| `Tutorials.NewTutorial` | src/tutorial/tutorials.service.ts:37-58 | likes and commentCount default to 0, omitted texts are null, and publishedAt is null unless truthy |
| `Tutorials.Revised` | src/tutorial/tutorials.service.ts:65-80 | only defined fields change; a falsy publishedAt becomes null |
| `Tutorials.EmptyUpdateChangesNothing` | src/tutorial/tutorials.service.ts:65-80 | an update with no defined field leaves the tutorial as it was |
| `Tutorials.TutorialsService.constructor` | src/tutorial/tutorials.service.ts:9-12 | the service starts with no tutorials, and every key is a lower-case UUID |
| `Tutorials.TutorialsService.FindById` | src/tutorial/tutorials.service.ts:61 | a `uuid` key is matched without regard to case: a row is found exactly when the argument is a UUID equal to a key up to case, and it is the row under the argument's lower-case form |
| `Tutorials.TutorialsService.Find` | src/tutorial/tutorials.service.ts:21-24 | a UUID argument finds the row whose key equals it up to case; anything else is looked up by slug |
| `Tutorials.TutorialsService.GetById` | src/tutorial/tutorials.service.ts:20-29 | found by id, ignoring case, for a UUID and by slug otherwise, else NotFound "Tutorial not found" |
| `Tutorials.TutorialsService.IncrementViewCount` | src/tutorial/tutorials.service.ts:31-35 | the found tutorial's viewCount becomes the old count, or 0 if absent, plus 1; nothing else changes |
| `Tutorials.TutorialsService.Create` | src/tutorial/tutorials.service.ts:37-58 | one new tutorial as `NewTutorial` builds it, under a fresh lower-case UUID |
| `Tutorials.TutorialsService.Update` | src/tutorial/tutorials.service.ts:60-83 | looks up by id only, ignoring case; NotFound exactly when no key matches; otherwise the tutorial becomes its revised version |
| `Tutorials.TutorialsService.Delete` | src/tutorial/tutorials.service.ts:85-92 | looks up by id only, ignoring case; NotFound exactly when no key matches; otherwise only that row goes |
| `Users.NewUser` | src/user/users.service.ts:51-61 | role defaults to User and status to Active; isVerified is false; the default password hash is used only when no password is given |
| `Users.Patched` | src/user/users.service.ts:76-117 | each provided field replaces its own, a truthy password is stored hashed, and the tokens are kept |
| `Users.EmptyPatchChangesNothing` | src/user/users.service.ts:99-117 | an update with no provided field leaves the user as it was |
| `Users.PatchIdempotent` | src/user/users.service.ts:99-117 | applying the same update twice equals applying it once |
| `Users.ProfileRequest` | src/user/users.controller.ts:106-118 | an Admin's request passes through unchanged; anyone else's loses role and status and nothing more |
| `Users.ProfileKeepsPrivileges` | src/user/users.controller.ts:113-117 | a non-Admin profile update can change neither role nor status |
| `Users.ProfileCanSetVerified` | src/user/users.controller.ts:113-117 | a non-Admin's profile update still sets `isVerified` when it is sent, since only role and status are stripped |
| `Users.PatchKeepsUnique` | src/user/users.service.ts:77-96 | an update whose email and username are each unchanged or unused keeps both columns unique |
| `Users.AssignFields` | src/user/users.service.ts:98-117 | the user after the assignments of the non-unique fields |
| `Users.UserService.constructor` | src/user/users.service.ts:11-14 | the service starts from a user table with unique emails and usernames |
| `Users.UserService.GetAll` | src/user/users.service.ts:16-20 | exactly the users whose role is not Admin |
| `Users.UserService.FindAllUsers` | src/user/users.service.ts:22-24 | exactly the users whose role is User |
| `Users.UserService.ListingsAgree` | src/user/users.service.ts:16-24 | with two roles, `getAll` and `findAllUsers` list the same users |
| `Users.UserService.GetById` | src/user/users.service.ts:26-32 | the stored user, or NotFound exactly when the id is missing |
| `Users.UserService.Create` | src/user/users.service.ts:34-68 | an email in use fails first, then a username in use, changing nothing; otherwise one new user as `NewUser` builds it; uniqueness is kept |
| `Users.UserService.Update` | src/user/users.service.ts:70-124 | NotFound for a missing id; a changed email or username that another user holds fails, changing nothing; otherwise the user is patched; uniqueness is kept |
| `Users.UserService.Delete` | src/user/users.service.ts:126-134 | NotFound for a missing id; otherwise only that row goes |
| `Users.UserService.Profile` | src/user/users.controller.ts:41-53 | no authenticated id answers 401; an unknown one NotFound; otherwise the user without password |
| `Users.UserService.UpdateProfile` | src/user/users.controller.ts:95-119 | no authenticated id answers 401 and changes nothing; the update targets the caller's own record; a non-Admin caller can change neither role nor status |
| `Auth.AsBadRequest` | src/auth/auth.service.ts:240-245 | a BadRequest passes through, and any other error becomes a BadRequest with the fallback message |
| `Auth.MissingField` | src/auth/auth.service.ts:27-41 | registration names the first missing required field, and names none exactly when all five are present |
| `Auth.NewAccount` | src/auth/auth.service.ts:61-80 | an unverified account with the hashed password, role User and status Active by default, and a verification token that expires 24 hours after now |
| `Auth.LoginIdentifier` | src/auth/auth.service.ts:110 | the identifier is used when truthy, else the email |
| `Auth.LoginColumn` | src/auth/auth.service.ts:121-133 | the lookup is by email exactly when the identifier passes `validateEmail`, else by username |
| `Auth.WithVerificationToken` | src/auth/auth.service.ts:143-149 | a fresh verification token with a 24-hour expiry, and nothing else changes |
| `Auth.WithResetToken` | src/auth/auth.service.ts:226-233 | a fresh reset token with a 1-hour expiry, and nothing else changes |
| `Auth.WithoutVerificationToken` | src/auth/auth.service.ts:326-341 | both verification fields cleared, and nothing else changes |
| `Auth.WithoutResetToken` | src/auth/auth.service.ts:278-296 | both reset fields cleared, and nothing else changes |
| `Auth.ClaimsOf` | src/auth/auth.service.ts:169-176 | the JWT payload carries the user's id, email, role, username, first name and last name |
| `Auth.StoreKeepsConsistent` | src/auth/auth.service.ts:287-296 | saving a user with the same email and username and paired token fields keeps the table consistent |
| `Auth.AuthService.constructor` | src/auth/auth.service.ts:17-22 | the service starts from a consistent user table |
| `Auth.AuthService.Register` | src/auth/auth.service.ts:24-105 | a missing field, then an email in use, then a username in use fail BadRequest and change nothing; otherwise exactly one new unverified account is added |
| `Auth.AuthService.Login` | src/auth/auth.service.ts:108-192 | the identifier and password are required; lookup is by email or username; a banned user fails before the password check; an unverified user gets a fresh token and fails; success needs a matching password and answers without the password |
| `Auth.AuthService.ForgotPassword` | src/auth/auth.service.ts:195-246 | an invalid email fails; an unknown one gets the generic message with no change; a banned or unverified user fails as BadRequest; otherwise a one-hour reset token is stored |
| `Auth.AuthService.ResetPassword` | src/auth/auth.service.ts:249-303 | an unknown token fails; an expired one clears the reset fields and fails; success replaces the password hash and clears the reset fields; every error is a BadRequest |
| `Auth.AuthService.VerifyEmail` | src/auth/auth.service.ts:306-348 | an already verified user succeeds with no change; an expired token clears the verification fields and fails; otherwise the user is verified and the token cleared |
| `Auth.AuthService.ResendVerification` | src/auth/auth.service.ts:351-408 | an unknown email gets the generic message with no change; a verified user is told so; a banned one fails Unauthorized; otherwise a fresh token is stored, and a failed mail is reported as BadRequest |

## Left out

- The Socket.IO gateways and the `emit` calls in the announcement and question services are left out. They are fire-and-forget realtime I/O.
- These are parameters of the operations, not modelled functions:
  - bcrypt hashing and comparison (the comparison is the `compare` constant of the auth service);
  - `crypto.randomBytes` tokens;
  - `Date.now` (an integer `now` in milliseconds);
  - `JwtService.sign` and `verify`;
  - whether a mail was sent (`mailSent`).
- Mail content and delivery are left out. So are the error handling and logging around the Cloudinary `destroy` call: it swallows every error and only logs.
- The file-system calls `existsSync` and `unlink` are left out. An operation only returns the local image path it would unlink (`removedImage`).
- `Languages.LanguageService.GetAll` and `Languages.LanguageService.GetAllForAdmin`: the result is a set. The `createdAt` descending order of both queries is not modelled.
- `Users.UserService.GetAll` and `Users.UserService.FindAllUsers`: the result is a set. The row order of these queries, which set no order, is not modelled.
- The `getAll` listings are left out. This covers workflows, courses, tutorials, and announcements and questions with their per-item like and pin counts. They are reads ordered by `createdAt` and only combine the rules modelled for one item.
- The thread-level `update` and `delete` of announcements and questions are left out. They copy defined fields or remove the row, like the other services.
- The categories, labels, tags, spikers and communities services are left out. They only copy fields through the ORM.
- The controllers are left out, except the image URL helper, the upload path, the profile endpoints and the guard.
  - The same `transformImageUrl` also appears in the community and workflow controllers.
  - The announcement controller calls `deleteComment` without a user id. The service is modelled as written, with the user id as a parameter.
- The init services, the seed script, `main.ts` and the module wiring are left out. They are bootstrap and SQL DDL.
- The announcement comment schema has no `parentCommentId` column. The service logic, which reads and writes that field, is followed instead.
- The entity fields that no rule reads are left out: timestamps other than comment creation, and the relations' loaded objects.
- Course `amount` is a decimal column; it is an integer here. No arithmetic is done on it.
- Tutorial `publishedAt` is kept as the given string. Date parsing is not modelled.
- `null` and `undefined` are both `None`, so a property is either absent or present. The one exception is the workflow update's `labelId`, where `null` clears the label and an absent property keeps it. The workflow update's `tagIds` and `tagTitles` are not excepted: in the program, `tagIds: null` passes the `!== undefined` test and sets the tags to none, while here it is absent and the tags are kept.
- Create and Update success messages of the workflow and course services are constant strings. They are not carried in the results.
- `Users.UserService.Create`: TypeORM's handling of an undefined `where` value is not modelled. The email and username are taken as given strings.
- `Courses.CourseService`, `Workflows.WorkflowService`, `Languages.LanguageService`, `Users.UserService` and `Comments.CommentService`: ids are compared as exact strings. Every key of these tables is a generated `uuid` column, and no route validates the id. So in the program an id that is not a UUID makes the database reject the query with a server error, where the model answers NotFound; and a stored UUID written in another letter case finds its row, where the model answers NotFound. This covers the course, workflow, language and user ids, the label and tag ids a workflow request names, and the thread, comment, parent and user ids of the comment services.
- `Tutorials.TutorialsService.Update` and `Tutorials.TutorialsService.Delete`: an id that is not a hyphenated UUID is NotFound "Tutorial not found" here. The database rejects most such ids with a server error, and accepts its other uuid spellings (braces, no hyphens), which find the row. The same holds for `Tutorials.TutorialsService.Find` on those spellings, since the service's own pattern sends them to the slug lookup; only `update` and `delete` reach the database with them.
- `Users.NewUser`: a supplied password is stored as given, without hashing, as the service does. Only the default password is hashed.
- `Auth.AuthService.Register`: the success message, the mail sending and the outer `catch` are not modelled. The result is the new id, and every error is a BadRequest, as after the `catch`.
- `Auth.AuthService.Login`: the signed token string is represented by its payload (`Claims`). The mail to an unverified user is not modelled.
- `Comments.CommentService.GetComments`: the order is taken from the rows the query returns. These are assumed newest first; the database sort itself is not modelled.
- Unique constraints are not modelled for language titles, tutorial slugs and the like. No operation of the core checks them.
- The race between a concurrent reply insert and a tree deletion is left out. It is a concurrency concern.

## Findings

| source | as written | input that shows it | evidently intended | confidence | as-written member | corrected member |
|---|---|---|---|---|---|---|
| src/workflow/workflows.service.ts:158-161 | a `null` or empty labelId assigns `undefined` to `label` and `labelId`; `save` (line 214) does not write `undefined` properties, so the row keeps its label, and the re-read answer (line 217) shows it | a workflow with a label, updated with `labelId: null` or `labelId: ""` | the label is removed, as the comment at line 159 says | not executed; rests on TypeORM's documented `save` behaviour | `Workflows.LabelStoredAsWritten`, `Workflows.RemovedLabelIsKept` | `Workflows.LabelOnUpdate` |
| src/course/courses.service.ts:85-88 | an empty image assigns `undefined` to `image`; `save` (line 103) does not write it, so the row keeps its old path, while the returned object shows none | a course with an image, updated with `image: ""` | the image is cleared, as the comment at line 86 says | not executed; rests on TypeORM's documented `save` behaviour | `Courses.StoredAsWritten`, `Courses.EmptyImageIsKept` | `Courses.EmptyImageClears` |
