# Studygram client logic in Dafny

Studygram is a web application for sharing study material: students
register, post titled documents tagged with an academic module, attach
files, like and comment on posts. Almost all of its data work happens in a
hosted backend; the client code holds a handful of small decision and state
rules. This project models those rules and proves what they promise:

- `Middleware` — the route guard in front of `/`, `/login` and `/register`:
  a pure decision from (path, session token present) to "redirect home",
  "redirect to login" or "continue".
- `Validations` — the register and login form schemas: minimum lengths, the
  e-mail rule (its address check is a parameter `isEmail`) and the
  password-confirmation refinement, with the German messages.
- `Utils` — `formatTimestamp`'s German relative-time buckets, from a
  millisecond difference, and `groupModulesByType`, a reduce that builds a
  map from module type to the modules of that type.
- `FileUploader` — the file picker's capped append (`onDrop`),
  remove-by-id (`removeFile`), icon choice by MIME type (`getFileIcon`) and
  the default limits.
- `Posts` — the post/comment records and the optimistic like updater.
- `FeedItemComponent.FeedItem`, `PostContentComponent.PostContent`,
  `CommentSectionComponent.CommentSection`,
  `UserPostsListComponent.UserPostsList` — the component state of the feed
  card, the post page, the comment thread and the own-posts list, as classes
  whose fields are the React state and whose methods are the handlers. What
  a server action answers is an argument of the handler.
- `Common` and `Text` — `Option`/`Result`, the answer of an awaited server
  action (`Call`: it threw, or resolved with possibly missing data),
  JavaScript truthiness of a nullable string, the order-preserving
  `filter` by id, rendering of a number in a template literal, and
  `String.prototype.trim`.

A handler that awaits a server call in its middle (`handleSubmitComment`,
`handleDeletePost`) is split into the part before the call (`BeginSubmit`,
`BeginDelete`), the part after it (`EndSubmit`, `EndDelete`), and the whole
handler, so the state during the call can be stated.

Behaviour kept as written: the feed card stores a failed load's error but
never clears `loading`, so it keeps showing its skeleton
(`FeedItem.LoadPost`); a detail lookup in the own-posts list that returns
no data both stores the merged rows and sets the error, and the error then replaces the
whole list (`UserPostsList.FetchUserPosts`). The form schemas follow zod 3,
which the server actions' use of `error.errors` points to: the password
refinement is checked even when a field rule already failed, so its issue
is reported alongside the field issues. `groupModulesByType` reads a `type`
field that the client's `Module` record (`code/src/types/general.ts`) does
not declare; the model's module record carries it as `moduleType`.

## Model

| member | source | states |
|---|---|---|
| Middleware.Guard | code/src/middleware.ts:6-26 | only a request with a token is sent home and only from a public page; only one without a token is sent to login and only from a non-public page; the target of a redirect is never the requested path |
| Middleware.PublicPathsAreAuthPaths | code/src/middleware.ts:11-12 | a path is public exactly when it is one of the two auth paths `/login`, `/register` |
| Middleware.GuardCases | code/src/middleware.ts:15-25 | the full decision table: home iff token and auth path, login iff no token and not an auth path, continue in the two remaining cases |
| Middleware.RedirectSettles | code/src/middleware.ts:14-22 | following the guard's redirect with the same session continues, so there is no redirect loop |
| Middleware.GuardOnMatchedPaths | code/src/middleware.ts:29-31 | on the three matched paths: `/` without token goes to login, with token continues; `/login` and `/register` continue without token and go home with one |
| Validations.MinLength | code/src/lib/validations.ts:5-8 | a length rule reports nothing iff the value has at least the minimum length, and otherwise exactly one issue, its own |
| Validations.EmailRule | code/src/lib/validations.ts:7 | the e-mail rule reports nothing iff the address is accepted, and otherwise exactly one issue, the e-mail issue |
| Validations.RegisterFieldIssues | code/src/lib/validations.ts:4-10 | each field rule's issue is reported exactly when that rule is broken, and no other issue |
| Validations.RegisterIssues | code/src/lib/validations.ts:3-14 | each register rule's issue (first and last name at least 2, e-mail, password at least 6, confirmation equal on the `confirmPassword` path) is reported exactly when that rule is broken, with its German message, and no other issue is reported |
| Validations.LoginIssues | code/src/lib/validations.ts:16-19 | the e-mail and password-length issues are reported exactly when those rules are broken, and no other issue |
| Validations.RegisterIssuesInOrder | code/src/lib/validations.ts:3-14 | the register issues come in the order the fields are declared, the refinement's last, at most one per field; the messages are joined in this order for the user |
| Validations.LoginIssuesInOrder | code/src/lib/validations.ts:16-19 | the e-mail issue comes before the password issue, at most one of each |
| Validations.ParseRegister | code/src/lib/validations.ts:3-14 | parsing succeeds with the form itself iff no issue is reported, and otherwise fails with the full, non-empty list of issues |
| Validations.ParseLogin | code/src/lib/validations.ts:16-19 | parsing succeeds with the form itself iff no issue is reported, and otherwise fails with the full, non-empty list of issues |
| Validations.RegisterAcceptedIff | code/src/lib/validations.ts:3-14 | a register form is accepted iff all field rules hold and the passwords match |
| Validations.LoginAcceptedIff | code/src/lib/validations.ts:16-19 | a login form is accepted iff the e-mail is valid and the password has at least 6 characters |
| Validations.RegisteredCanLogIn | code/src/lib/validations.ts:7-18 | the e-mail and password of any accepted register form pass the login schema |
| Utils.AgeOf | code/src/lib/utils.ts:17-25 | minutes, hours and days are floor divisions of the same difference; under one minute (also negative) is "just now"; 1..59 minutes; hours 1..23 from 60 minutes on; one day when hours reach 24 and days are 1; otherwise days of at least 2 |
| Utils.HoursFromMinutes | code/src/lib/utils.ts:17-18 | sixty whole minutes are at least one whole hour, so the hour bucket never shows 0 |
| Utils.DaysFromHours | code/src/lib/utils.ts:18-19 | twenty-four whole hours are at least one whole day |
| Utils.AgeMonotone | code/src/lib/utils.ts:17-25 | a larger difference never yields an earlier bucket, and within one bucket never a smaller number |
| Utils.FormatTimestamp | code/src/lib/utils.ts:13-26 | stated on the millisecond difference itself: below one minute "Gerade eben"; below an hour the whole minutes with " Minuten zuvor"; below a day the whole hours with " Stunden zuvor"; below two days "1 Tag zuvor"; from two days on the whole days with " Tage zuvor" |
| Utils.LabelInjective | code/src/lib/utils.ts:21-25 | different buckets, or the same bucket with different numbers, never show the same text |
| Text.DecimalString | code/src/lib/utils.ts:22-25 | the number in a label is a non-empty run of decimal digits without leading zero |
| Text.DecimalRoundTrip | code/src/lib/utils.ts:22-25 | reading the rendered digits back gives the number itself |
| Text.DecimalInjective | code/src/lib/utils.ts:22-25 | different numbers render differently |
| Utils.GroupModulesByType | code/src/lib/utils.ts:101-109 | the loop that creates a missing group and pushes each module returns the reduce's result, which has a group for exactly the types that occur, each holding the modules of that type in input order |
| Utils.OfTypeMembers | code/src/lib/utils.ts:103-106 | the modules of a type, taken in input order, are exactly the input modules of that type |
| Utils.GroupingAt | code/src/lib/utils.ts:102-108 | for every type, the reduce's accumulator has a group iff the type occurs, and that group is the input's modules of the type in order |
| Utils.GroupingPlacesEachModule | code/src/lib/utils.ts:101-108 | every module is in the group keyed by its own type, and each group holds only input modules of its key's type |
| Utils.GroupingKeys | code/src/lib/utils.ts:102-108 | the keys are exactly the types occurring in the input, each group is the modules of its type in input order, and no group is empty |
| Utils.GroupingTotal | code/src/lib/utils.ts:102-108 | the group sizes add up to the number of input modules |
| FileUploader.DefaultLimits | code/src/components/file-uploader.tsx:24-25 | the defaults are 5 files and 10485760 bytes |
| FileUploader.DropAtDefaultCap | code/src/components/file-uploader.tsx:24-32 | with the default cap, a selection of five files takes no further file, and a drop that keeps the total at five or fewer is taken |
| FileUploader.OnDrop | code/src/components/file-uploader.tsx:27-45 | nothing is handed back iff the drop would exceed `maxFiles`; otherwise the old list followed by the dropped files in order under their fresh ids, of length equal to the sum and at most `maxFiles` |
| FileUploader.DropKeepsCap | code/src/components/file-uploader.tsx:29-42 | starting within `maxFiles`, the selection stays within it after a drop, taken or not |
| FileUploader.RemoveFile | code/src/components/file-uploader.tsx:64-66 | the result holds exactly the items whose id differs, and an unknown id leaves the list unchanged |
| FileUploader.RemoveFileIdempotent | code/src/components/file-uploader.tsx:64-66 | removing an id twice equals removing it once |
| FileUploader.DropThenRemove | code/src/components/file-uploader.tsx:27-66 | dropping a file under a fresh id and removing that id restores the selection |
| Common.Without | code/src/components/file-uploader.tsx:65 | the id filter keeps exactly the elements with a different key, never grows the list, and is the identity when no key matches |
| Common.WithoutAppend | code/src/components/file-uploader.tsx:65 | the filter distributes over concatenation, so the kept elements stay in their order |
| Common.WithoutIdempotent | code/src/components/user-posts-list.tsx:100 | filtering an id out twice equals filtering it once |
| FileUploader.FileIcon | code/src/components/file-uploader.tsx:68-74 | the icon rules apply in priority order: `image/` prefix, then `pdf` substring, then `zip` or `archive` substring, else generic |
| FileUploader.IncludesAt | code/src/components/file-uploader.tsx:70-71 | an occurrence at any position makes `includes` true |
| FileUploader.IncludesOccurs | code/src/components/file-uploader.tsx:70-71 | `includes` is true only when the substring occurs at some position |
| FileUploader.IncludedCharsOccur | code/src/components/file-uploader.tsx:70-71 | every character of an included string occurs in the including one |
| FileUploader.IconOfImage | code/src/components/file-uploader.tsx:69 | `image/png` gets the image icon |
| FileUploader.IconOfPdf | code/src/components/file-uploader.tsx:70 | `application/pdf` gets the document icon |
| FileUploader.IconOfZip | code/src/components/file-uploader.tsx:71-72 | `application/zip` gets the archive icon |
| FileUploader.IconOfPlainText | code/src/components/file-uploader.tsx:73 | `text/plain` gets the generic icon |
| Posts.ToggleLike | code/src/components/feed-item.tsx:39-46 | the flag flips, the count moves by -1 if it was liked and +1 otherwise, and every other field is unchanged |
| Posts.ToggleTwice | code/src/components/feed-item.tsx:43-44 | two toggles restore the post |
| Posts.ToggleKeepsConsistent | code/src/components/post-content.tsx:30-31 | a count that is non-negative and at least 1 while liked stays so after a toggle |
| FeedItemComponent.FeedItem.constructor | code/src/components/feed-item.tsx:16-18 | no item, loading, no error |
| FeedItemComponent.FeedItem.LoadPost | code/src/components/feed-item.tsx:21-30 | a truthy error or missing data stores the error as given and leaves item and loading, so the skeleton stays; otherwise the post is stored and loading ends |
| FeedItemComponent.FeedItem.HandleLike | code/src/components/feed-item.tsx:35-48 | without an item nothing is requested or changed; with one the like of `postId` is requested and the item is toggled only on success; loading and error are unchanged |
| FeedItemComponent.FeedItem.Render | code/src/components/feed-item.tsx:50-51 | a skeleton exactly while loading; the post card exactly when loaded with a post and no truthy error; otherwise the error text |
| PostContentComponent.PostContent.constructor | code/src/components/post-content.tsx:15 | the state is the post passed in |
| PostContentComponent.PostContent.HandleLike | code/src/components/post-content.tsx:23-35 | the shown post's id is requested; the post is toggled on success and unchanged otherwise |
| CommentSectionComponent.CommentSection.constructor | code/src/components/comment-section.tsx:16-20 | no comments, empty input, loading, not submitting, no error |
| CommentSectionComponent.CommentSection.LoadComments | code/src/components/comment-section.tsx:23-35 | returned data replaces the list, a throw sets the load error, loading ends in every case |
| CommentSectionComponent.CommentSection.SetNewComment | code/src/components/comment-section.tsx:72 | the input becomes the typed text and nothing else changes |
| Text.TrimEmptyIffBlank | code/src/components/comment-section.tsx:41 | the trimmed input is empty exactly when every character is JavaScript whitespace |
| CommentSectionComponent.CommentSection.BeginSubmit | code/src/components/comment-section.tsx:41-47 | blank input sends nothing and changes nothing; otherwise submitting is set, the error cleared, and the untrimmed input is sent |
| CommentSectionComponent.CommentSection.EndSubmit | code/src/components/comment-section.tsx:47-59 | a returned comment is put first before the old list and the input cleared; missing data or a throw keeps list and input and sets the error; submitting ends |
| CommentSectionComponent.CommentSection.HandleSubmitComment | code/src/components/comment-section.tsx:40-60 | the whole handler: blank input is a no-op; otherwise the raw input is sent, the list is prepended on success with the error cleared, or kept with the error set, and submitting is false afterwards |
| CommentSectionComponent.CommentSection.CountLabel | code/src/components/comment-section.tsx:101-107 | a skeleton while loading, else "Kommentare (n)" whose digits, without a leading zero unless there are no comments, read back as the length of the list |
| UserPostsListComponent.MergeDetails | code/src/components/user-posts-list.tsx:58-78 | every row whose detail arrived yields an entry with id, title, module and files from the detail and `createdAt` from the row; nothing else is in the result, and it is never longer than the rows |
| UserPostsListComponent.MergeAllArrived | code/src/components/user-posts-list.tsx:58-78 | when every detail arrived, the result is each row paired with its own detail, in row order |
| UserPostsListComponent.MergeAppend | code/src/components/user-posts-list.tsx:58-78 | merging distributes over concatenation, so surviving entries keep the rows' order |
| UserPostsListComponent.MergeShorterIffMissing | code/src/components/user-posts-list.tsx:62-78 | the merged list is shorter than the rows exactly when some detail did not arrive |
| UserPostsListComponent.MergeDropsIffMissing | code/src/components/user-posts-list.tsx:58-78 | when no lookup threw, a row is dropped from the list exactly when some lookup delivered no data, which is when the error is set |
| UserPostsListComponent.UserPostsList.constructor | code/src/components/user-posts-list.tsx:40-43 | no posts, loading, no error, nothing being deleted |
| UserPostsListComponent.UserPostsList.Render | code/src/components/user-posts-list.tsx:109-196 | a spinner exactly while loading; the error text exactly when not loading and the error is truthy; otherwise the posts, with the "no posts yet" note exactly when there are none |
| UserPostsListComponent.UserPostsList.FetchUserPosts | code/src/components/user-posts-list.tsx:46-85 | no list data or a throw: error set, posts unchanged; otherwise posts become the merge and a missing detail sets the error; in every error case the error view replaces the list; loading is false afterwards |
| UserPostsListComponent.UserPostsList.BeginDelete | code/src/components/user-posts-list.tsx:90-92 | the target id is recorded while the call runs |
| UserPostsListComponent.UserPostsList.EndDelete | code/src/components/user-posts-list.tsx:93-107 | success removes exactly the posts with that id; a reported failure keeps the list and sets the server's message or the default; a throw keeps the list and sets its message; the target id is cleared |
| UserPostsListComponent.UserPostsList.HandleDeletePost | code/src/components/user-posts-list.tsx:90-107 | on success exactly the posts with that id are gone and every other post remains; a reported failure keeps the list and shows the server's message, or the default when that is empty; a throw keeps the list and shows its own message; the target id is cleared |

## Left out

- Utils.GroupModulesByType: module types that name a property every JavaScript object inherits (`constructor`, `toString`, `__proto__`, …) are outside the model. For those, `acc[module.type]` is already truthy on the empty accumulator, no array is created, and the `push` throws; the model's map has no inherited keys, so it builds an ordinary group for them.
- The server actions (`getPost`, `getPostsByUser`, `likePost`, `getComments`, `createComment`, `deletePost`) and the backend behind them: their answers are arguments of the handlers. Feed aggregation, like counting, sorting and username derivation are not part of this model.
- The schemas `postSchema` and `profileFormSchema` are not part of this model; the e-mail address check of zod is the parameter `isEmail`.
- String lengths are counted in Dafny characters (Unicode scalar values), whereas zod's `min` counts UTF-16 code units; the two differ only for characters outside the Basic Multilingual Plane.
- The clock, time-zone and date parsing part of `formatTimestamp`: the model starts from the integer difference in milliseconds.
- react-dropzone's own filtering by `maxSize` and accepted types, and the time- and random-based id generation: fresh ids are an argument of `OnDrop`.
- `Promise.all` in the own-posts list is modelled as a sequential pass over the rows; the order of `setError` calls among concurrent lookups is not modelled (they all set the same message).
- React's scheduling: each handler runs to completion on the state it starts from, so stale closures and interleaved updates are not modelled.
- Rendering, the mock file list of the post page, navigation, pages, skeletons, the category tabs, the activity feed, the authentication configuration and `cn` are not part of this model.
- The console logging in the error paths.
