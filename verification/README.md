# nextpress admin core, modelled in Dafny

nextpress is a content management system built on Next.js. Its admin app
edits pages and posts and tags them. It signs users in and guards its API
routes by role. It also shows toasts, breadcrumbs and a sidebar around the
screens. This project models the logic of that admin app, one Dafny module
per part of the program:

- **Rich text** (`SlateSchema`, `SlateTree`, `SlateUtils`, `SlateEditorView`):
  - the document shape the editor accepts;
  - the transforms its toolbar commands are made of (unwrapping lists,
    setting properties on the lowest elements, wrapping in a new list);
  - the commands themselves: toggling a mark, a block format or a heading,
    and setting the alignment;
  - the editor component: the empty-value fallback, the JSON code view and
    how elements and text leaves are rendered.
- **Tags** (`TagRepo`, `TagService`, `TagClient`, `TagSelect`):
  - the taxonomy table with its unique constraints and page links;
  - the tag services: validation, the unique-slug loop, delete and
    relinking;
  - the client-side response guards;
  - the tag picker component.
- **Pages and posts** (`ContentValidation`, `ContentDto`, `ContentService`,
  `ContentForms`, `EditorForm`):
  - schema validation of request bodies;
  - the form-to-DTO mappers;
  - the page and post services over an in-memory table;
  - the page and post forms, whose slug follows the title until edited.
- **Sign-in and roles** (`AuthUtils`, `AuthServer`):
  - the safe callback URL;
  - the sign-in error messages;
  - the sign-up and reset-password rules;
  - role lookup and the route wrapper.
- **Shell** (`Nav`, `Breadcrumbs`, `Toast`, `ToastHost`, `ConfirmDialog`,
  `AvatarUtils`): active navigation items, breadcrumb trails, the toast bus
  and host, the confirm dialog and avatar URL normalisation.
- **Shared** (`Prelude`, `Strings`, `Json`, `ResultPairs`, `SlugUtils`):
  - the `[data, error]` result pairs;
  - `slugify`;
  - the string and JSON primitives the program relies on.

The model's boundaries:

- **Stateful parts are classes.**
  - The database tables are `TagRepo.TagStore` and
    `ContentService.ContentStore`.
  - The editor is `SlateUtils.Editor`, the picker
    `TagSelect.TagMultiSelect`, the toast bus `Toast.ToastBus` and its host
    `ToastHost.Host`.
  - Their methods state the new state through the specification functions
    beside them.
- **Effects are parameters.** Database access, `fetch`, timers and
  randomness become parameters or events:
  - a response body, or None for a failed request;
  - a fresh id for `crypto.randomUUID()` or a new row id;
  - a timeout event for `setTimeout`.

## Model

| member | source | states |
|---|---|---|
| ResultPairs.TryCatch | packages/shared/src/utils/result.ts:9-18 | a resolved promise gives `[value, null]` (a `null` value stays `null`), a rejected one `[null, reason]`; the error half is empty exactly when the promise resolved |
| ResultPairs.MapResultError | packages/shared/src/utils/result.ts:23-29 | the data half is kept; the error half is mapped exactly when it holds a truthy error, and an absent or falsy error becomes `null` |
| ResultPairs.MapResultErrorCompose | packages/shared/src/utils/result.ts:23-29 | mapping twice equals mapping once with the composed mapper, where an error survives when it and its first image are both truthy |
| ResultPairs.UnwrapResult | packages/shared/src/utils/result.ts:37-52 | non-null data is returned whatever the error half holds; otherwise a truthy error with a factory throws the factory's error, an `Error` is rethrown, and anything else throws "Unknown error" |
| ResultPairs.UnwrapTryCatch | packages/shared/src/utils/result.ts:9-52 | unwrapping what `tryCatch` produced: a non-null value comes back, a `null` value throws "Unknown error", a thrown error goes through the factory, the rethrow or "Unknown error" |
| ResultPairs.UnwrapPrefersData | packages/shared/src/utils/result.ts:44 | data wins over an error present in the same pair |
| ResultPairs.FalsyErrorIgnored | packages/shared/src/utils/result.ts:23-52 | a falsy error (`0`, `""`) is dropped by `mapResultError` and, unless it is an `Error`, unwraps like a pair with no error |
| AuthUtils.HexValue | apps/admin/src/components/auth/utils/safeCallbackUrl.ts:13 | a hex digit's value is below 16 |
| AuthUtils.Decode | apps/admin/src/components/auth/utils/safeCallbackUrl.ts:13 | `decodeURIComponent` on `%XX` escapes: the decoded text is never longer than the input; a malformed escape throws (None) |
| AuthUtils.DecodePlain | apps/admin/src/components/auth/utils/safeCallbackUrl.ts:13 | text without `%` decodes to itself |
| AuthUtils.Screened | apps/admin/src/components/auth/utils/safeCallbackUrl.ts:6-22 | a path survives screening only if the input is non-empty, its trimmed form is not an absolute http(s) URL, and it decodes; the survivor is the decoded trimmed input |
| AuthUtils.ProtocolRelativeAccepted | apps/admin/src/components/auth/utils/safeCallbackUrl.ts:1-19 | as written, every `//host` path passes the whitelist; the intended whitelist sends it to `/admin` |
| AuthUtils.PlainPathScreened | apps/admin/src/components/auth/utils/safeCallbackUrl.ts:9-13 | a trimmed path without escapes passes screening unchanged |
| AuthUtils.SlashNotHttp | apps/admin/src/components/auth/utils/safeCallbackUrl.ts:11 | text starting with `/` never matches the absolute-URL test |
| AuthUtils.AllowedSameOrigin | apps/admin/src/components/auth/utils/safeCallbackUrl.ts:1-17 | every path the intended whitelist accepts starts with exactly one `/` and is `/` or under `/admin` |
| AuthUtils.Resolve | apps/admin/src/components/auth/utils/safeCallbackUrl.ts:15-19 | the whitelist step returns the screened path or `/admin`, and what it returns is a same-origin path at `/` or under `/admin` |
| AuthUtils.SafeCallbackUrl | apps/admin/src/components/auth/utils/safeCallbackUrl.ts:3-23 | the result is `/admin` or the screened input, and always a same-origin path at `/` or under `/admin` (an open redirect is impossible) |
| AuthUtils.CallbackAcceptedIff | apps/admin/src/components/auth/utils/safeCallbackUrl.ts:15-19 | once screening yields a path, it is returned exactly when the whitelist (as written or as intended) accepts it or it is `/admin` |
| AuthUtils.CallbackDefaults | apps/admin/src/components/auth/utils/safeCallbackUrl.ts:6-22 | missing or empty input, an absolute http(s) URL and undecodable input all give `/admin`, in both versions |
| AuthUtils.CallbackVersionsAgree | apps/admin/src/components/auth/utils/safeCallbackUrl.ts:15-17 | the intended and the as-written versions differ only on protocol-relative paths |
| AuthUtils.MapNextAuthError | apps/admin/src/components/auth/utils/errorMap.ts:1-12 | `null` exactly for a missing or empty code; a prototype member name (`toString`, `constructor`, ...) yields that member; otherwise a non-empty message from the table, the default one exactly when the code is not in the table or is `"default"` |
| AuthUtils.MessageIdentifiesCode | apps/admin/src/components/auth/utils/errorMap.ts:3-11 | two codes giving the same non-default message are the same code |
| EditorForm.BuildInitialForm | apps/admin/src/ui/utils/editorForm.ts:7-14 | an empty slug next to a non-empty title becomes the title's slug; otherwise the value is returned as is; title and other fields never change |
| EditorForm.BuildInitialFormIdempotent | apps/admin/src/ui/utils/editorForm.ts:7-14 | building the initial form twice is building it once |
| EditorForm.GetEntityId | apps/admin/src/ui/utils/editorForm.ts:20-27 | an id is returned exactly when the value is an object whose `id` is a string with non-blank content, and it is returned untrimmed |
| ConfirmDialog.Dialog.constructor | apps/admin/src/ui/components/ConfirmDialog/useConfirmDialog.ts:6-7 | starts closed with no payload |
| ConfirmDialog.Dialog.Show | apps/admin/src/ui/components/ConfirmDialog/useConfirmDialog.ts:9-12 | opens and replaces the payload, whatever was there |
| ConfirmDialog.Dialog.Hide | apps/admin/src/ui/components/ConfirmDialog/useConfirmDialog.ts:14-17 | closes and clears the payload |
| SlugUtils.DropHyphens | apps/admin/src/lib/utils/slugify.ts:16 | a helper of hyphen collapsing: drops a leading run of hyphens, keeping a suffix |
| SlugUtils.CollapseHyphens | apps/admin/src/lib/utils/slugify.ts:16 | `replace(/-+/g, "-")`: no two hyphens in a row remain, the first character is kept and no new characters appear |
| SlugUtils.CollapseHyphensNoop | apps/admin/src/lib/utils/slugify.ts:16 | text without a double hyphen is left alone |
| SlugUtils.Slugify | apps/admin/src/lib/utils/slugify.ts:7-17 | the result is a slug: only `a-z`, `0-9` and `-`, with no two hyphens in a row |
| SlugUtils.CollapsedSlug | apps/admin/src/lib/utils/slugify.ts:16 | collapsing hyphens in slug characters gives a slug |
| SlugUtils.SlugFixed | apps/admin/src/lib/utils/slugify.ts:7-17 | a slug slugifies to itself |
| SlugUtils.SlugifyIdempotent | apps/admin/src/lib/utils/slugify.ts:7-17 | slugifying twice is slugifying once |
| SlugUtils.SlugifyWords | apps/admin/src/lib/utils/slugify.ts:3-17 | two words with space around and between them and punctuation after them become `word-word` in lower case, as the doc examples "Hello World!" and "   Multi   space   " show |
| SlugUtils.WordsPrepared | apps/admin/src/lib/utils/slugify.ts:10-13 | for such input, removing marks, lower-casing and trimming leaves the lower-cased words with the inner space and the trailing punctuation |
| SlugUtils.WordsJoined | apps/admin/src/lib/utils/slugify.ts:14-16 | then dropping other characters and replacing the space run leaves `word-word` |
| Toast.ShowEventDefaults | apps/admin/src/ui/utils/toast.ts:55-73 | with no type and no options the show event is a success at the top right with a 2000 ms timeout |
| Toast.ShowEventKeepsGiven | apps/admin/src/ui/utils/toast.ts:55-73 | a given type, description, timeout and position are carried into the show event unchanged |
| Toast.Deliveries | apps/admin/src/ui/utils/toast.ts:75 | every listener, in subscription order, receives the event exactly once |
| Toast.Without | apps/admin/src/ui/utils/toast.ts:46 | `Set.delete`: the listener is gone, every other one stays, distinctness is kept, and deleting an absent listener changes nothing |
| Toast.ToastBus.constructor | apps/admin/src/ui/utils/toast.ts:38-39 | no listeners, the id counter at 1, nothing sent |
| Toast.ToastBus.Subscribe | apps/admin/src/ui/utils/toast.ts:44-45 | `Set.add`: the listener is appended unless already present; listeners stay distinct |
| Toast.ToastBus.Unsubscribe | apps/admin/src/ui/utils/toast.ts:46 | the returned function removes the listener and reports whether it had been there |
| Toast.ToastBus.Emit | apps/admin/src/ui/utils/toast.ts:75 | the delivery log grows by exactly one delivery of the event per listener; listeners and counter unchanged |
| Toast.ToastBus.ShowToast | apps/admin/src/ui/utils/toast.ts:55-76 | without a window nothing changes and no id is used; with one the current counter value becomes the toast's id, the counter goes up by one, and the show event reaches every listener; the id is above every id sent before |
| Toast.ToastBus.Cancel | apps/admin/src/ui/utils/toast.ts:78-81 | the cancel function sends the hide event for that id to every listener |
| Toast.ShowTwice | apps/admin/src/ui/utils/toast.ts:64 | two toasts shown one after the other get strictly increasing ids |
| ToastHost.PosClassInjective | apps/admin/src/ui/components/ToastHost/ToastHost.tsx:17-25 | each corner gets its own DaisyUI position classes |
| ToastHost.VariantClassInjective | apps/admin/src/ui/components/ToastHost/ToastHost.tsx:28-36 | each toast type gets its own alert variant |
| ToastHost.Entering | apps/admin/src/ui/components/ToastHost/ToastHost.tsx:47-53 | the toast added for a show event carries its id, position and type and is entering (`isIn`) |
| ToastHost.MarkOut | apps/admin/src/ui/components/ToastHost/ToastHost.tsx:57-59 | the toasts with that id start their exit; every other toast and every other field is unchanged |
| ToastHost.MarkOutIdempotent | apps/admin/src/ui/components/ToastHost/ToastHost.tsx:64-68 | a second hide of the same toast changes nothing |
| ToastHost.Remove | apps/admin/src/ui/components/ToastHost/ToastHost.tsx:105 | exactly the toasts with another id remain |
| ToastHost.RemoveAppend | apps/admin/src/ui/components/ToastHost/ToastHost.tsx:105 | removal keeps the order of the rest: it distributes over concatenation |
| ToastHost.RemoveAbsent | apps/admin/src/ui/components/ToastHost/ToastHost.tsx:105 | removing an id no toast carries changes nothing |
| ToastHost.RemoveMarkOut | apps/admin/src/ui/components/ToastHost/ToastHost.tsx:57-105 | once a toast's exit ends, whether it was hidden before makes no difference |
| ToastHost.OfPosition | apps/admin/src/ui/components/ToastHost/ToastHost.tsx:82-88 | a corner's group is never longer than the list |
| ToastHost.OfPositionMembers | apps/admin/src/ui/components/ToastHost/ToastHost.tsx:82-88 | a toast is in a corner's group exactly when it is on screen at that corner |
| ToastHost.OfPositionAppend | apps/admin/src/ui/components/ToastHost/ToastHost.tsx:82-88 | grouping keeps list order: it distributes over concatenation |
| ToastHost.GroupSizes | apps/admin/src/ui/components/ToastHost/ToastHost.tsx:82-88 | every toast is in exactly one group: the four group sizes add up to the list's length |
| ToastHost.Host.constructor | apps/admin/src/ui/components/ToastHost/ToastHost.tsx:39 | no toasts; ids trivially distinct |
| ToastHost.Host.OnEvent | apps/admin/src/ui/components/ToastHost/ToastHost.tsx:45-70 | a show event appends an entering toast, a hide event starts that toast's exit; distinct ids stay distinct when the shown id is above every id on screen |
| ToastHost.Host.OnTimeout | apps/admin/src/ui/components/ToastHost/ToastHost.tsx:56-60 | the timer's end starts the toast's exit and keeps ids distinct |
| ToastHost.Host.OnExited | apps/admin/src/ui/components/ToastHost/ToastHost.tsx:103-106 | the end of the exit animation removes the toast: no toast with that id remains, ids stay distinct |
| ToastHost.Host.GroupByPosition | apps/admin/src/ui/components/ToastHost/ToastHost.tsx:82-88 | each corner's group is exactly the toasts at that corner in list order |
| ToastHost.ShowKeepsIdsUnique | apps/admin/src/ui/components/ToastHost/ToastHost.tsx:50-53 | appending a toast whose id is above every id on screen keeps ids distinct |
| ToastHost.HideAndExitKeepIdsUnique | apps/admin/src/ui/components/ToastHost/ToastHost.tsx:57-105 | hiding and removing keep ids distinct |
| AvatarUtils.HostShape | apps/admin/src/ui/components/UserAvatar/UserAvatar.utils.ts:1-7 | (helper, a fact about the host constants) every provider host contains a `.` and no `?` or `&` |
| AvatarUtils.RulesCover | apps/admin/src/ui/components/UserAvatar/UserAvatar.utils.ts:14-61 | (helper, a fact about the rule list) every provider has a rule |
| AvatarUtils.FindRule | apps/admin/src/ui/components/UserAvatar/UserAvatar.utils.ts:64 | the rule found is one whose host the URL contains and no rule before it in list order matches (`Array.find` returns the first match); none is found exactly when the URL contains no rule's host |
| AvatarUtils.FindRuleSameHosts | apps/admin/src/ui/components/UserAvatar/UserAvatar.utils.ts:64 | two URLs containing the same hosts select the same rule |
| AvatarUtils.Separator | apps/admin/src/ui/components/UserAvatar/UserAvatar.utils.ts:19 | `&` exactly when the URL already has a `?`, else `?` |
| AvatarUtils.XSizeName | apps/admin/src/ui/components/UserAvatar/UserAvatar.utils.ts:52-55 | up to 48 px "small", up to 96 "normal", above that "bigger" |
| AvatarUtils.SizeQuery | apps/admin/src/ui/components/UserAvatar/UserAvatar.utils.ts:20-58 | the appended query never contains a `.`, so it cannot add a host |
| AvatarUtils.NormalizeFor | apps/admin/src/ui/components/UserAvatar/UserAvatar.utils.ts:17-59 | a URL already sized for the provider is returned as is; any other gets the separator and the provider's size query appended |
| AvatarUtils.NormalizeAvatarUrl | apps/admin/src/ui/components/UserAvatar/UserAvatar.utils.ts:63-66 | a URL with no provider host is unchanged, otherwise the rule `FindRule` finds, the first match in rule order, normalises it; the input is always a prefix of the result |
| AvatarUtils.AppendedSized | apps/admin/src/ui/components/UserAvatar/UserAvatar.utils.ts:18-58 | after its size query is appended, a URL passes that provider's "already sized" test |
| AvatarUtils.AppendedSameRule | apps/admin/src/ui/components/UserAvatar/UserAvatar.utils.ts:64 | appending the size query does not change which rule matches |
| AvatarUtils.NormalizeIdempotent | apps/admin/src/ui/components/UserAvatar/UserAvatar.utils.ts:63-66 | normalising twice is normalising once |
| AvatarUtils.IsProviderAvatar | apps/admin/src/ui/components/UserAvatar/UserAvatar.utils.ts:70-73 | true exactly for a present URL that some provider rule matches |
| AvatarUtils.NormalizeOnlyProviders | apps/admin/src/ui/components/UserAvatar/UserAvatar.utils.ts:63-73 | only provider avatars are rewritten, and an unsized provider avatar always grows |
| Nav.IsActive | apps/admin/src/ui/shell/Sidebar/Sidebar.tsx:40-43 | an active entry's href is a prefix of the path ending at the path's end or at a `/`; the dashboard is active only on `/admin` itself |
| Nav.DashboardOnlyExact | apps/admin/src/ui/shell/Sidebar/Sidebar.tsx:21-43 | the dashboard entry is highlighted exactly on `/admin` |
| Nav.SectionCoversSubtree | apps/admin/src/ui/shell/Sidebar/Sidebar.tsx:21-43 | every other entry is highlighted on its own path and on every path below it |
| Nav.SiblingNotActive | apps/admin/src/ui/shell/Sidebar/Sidebar.tsx:40-43 | a path that merely starts with an entry's text (`/admin/pagesX`) does not highlight it |
| Nav.PrefixesDisagree | apps/admin/src/ui/shell/Sidebar/Sidebar.tsx:40-43 | a path cannot start with two texts that differ at a position both have |
| Nav.Disagreement | apps/admin/src/ui/shell/Sidebar/Sidebar.tsx:21-27 | any two section hrefs differ at a position both have |
| Nav.AtMostOneActive | apps/admin/src/ui/shell/Sidebar/Sidebar.tsx:21-43 | at most one sidebar entry is highlighted for any path |
| Nav.ExactlyTheSection | apps/admin/src/ui/shell/Sidebar/Sidebar.tsx:21-43 | on a path below a section exactly that section's entry is highlighted |
| AuthServer.RoleText | apps/admin/src/lib/auth/auth-server.ts:12 | every `RoleName` is a non-empty upper-case text |
| AuthServer.RoleOf | apps/admin/src/lib/auth/auth-server.ts:12 | a text names a role only when it is that role's text exactly |
| AuthServer.RoleOfText | apps/admin/src/lib/auth/auth-server.ts:12 | every role's text names that role |
| AuthServer.HasAnyRole | apps/admin/src/lib/auth/auth-server.ts:105-113 | false for a missing or empty role; otherwise true exactly when the upper-cased text is an allowed role's text |
| AuthServer.HasAnyRoleIgnoresCase | apps/admin/src/lib/auth/auth-server.ts:111 | the stored role's case makes no difference |
| AuthServer.AllowedRolePasses | apps/admin/src/lib/auth/auth-server.ts:105-113 | every allowed role passes, in upper or lower case |
| AuthServer.GetUserRole | apps/admin/src/lib/auth/auth-server.ts:90-99 | a role comes back exactly when the id is non-empty, the user exists and has a role, and it is that role's name |
| AuthServer.WithAuthAsWritten | apps/admin/src/lib/auth/auth-server.ts:134-163 | as written: no session user gives 401; the handler runs exactly when the user's role passes, and receives the stored role text |
| AuthServer.WithAuthPassesUnnormalisedRole | apps/admin/src/lib/auth/auth-server.ts:105-161 | a role stored as `admin` passes the type guard for `ADMIN` and reaches the handler as a text that is no `RoleName` |
| AuthServer.WithAuth | apps/admin/src/lib/auth/auth-server.ts:134-163 | no session user gives 401; the handler runs exactly when the role passes, and then gets an allowed `RoleName` whose text is the stored role upper-cased |
| AuthServer.WithAuthAgrees | apps/admin/src/lib/auth/auth-server.ts:134-163 | both versions admit the same requests for the same user; they differ only in the role text handed over |
| Breadcrumbs.Segments | apps/admin/src/ui/layout/Breadrcumbs/Breadcrumbs.tsx:35 | every segment of the path is non-empty and has no `/` |
| Breadcrumbs.SplitJoin | apps/admin/src/ui/layout/Breadrcumbs/Breadcrumbs.tsx:35 | splitting `/`-free pieces joined by `/` gives the pieces back |
| Breadcrumbs.SegmentsOfJoined | apps/admin/src/ui/layout/Breadrcumbs/Breadcrumbs.tsx:35 | the segments of `"/" + segs.join("/")` are `segs` |
| Breadcrumbs.HrefSegments | apps/admin/src/ui/layout/Breadrcumbs/Breadcrumbs.tsx:70 | crumb i links to the path whose segments are the first i+1 segments |
| Breadcrumbs.HrefsSegments | apps/admin/src/ui/layout/Breadrcumbs/Breadcrumbs.tsx:69-70 | the same, for every crumb at once |
| Breadcrumbs.HrefExtends | apps/admin/src/ui/layout/Breadrcumbs/Breadcrumbs.tsx:70 | each crumb's link is the previous crumb's link extended by one segment |
| Breadcrumbs.Spaced | apps/admin/src/ui/layout/Breadrcumbs/Breadcrumbs.tsx:29 | every hyphen becomes a space, every other character stays |
| Breadcrumbs.ToLabel | apps/admin/src/ui/layout/Breadrcumbs/Breadcrumbs.tsx:11-31 | `new`/`create` after `pages`/`posts` gives "Create Page"/"Create Post"; an id-like segment after `posts`/`pages` gives "Edit Post"/"Edit Page"; with no previous segment the label is as long as the segment |
| Breadcrumbs.PlainLabel | apps/admin/src/ui/layout/Breadrcumbs/Breadcrumbs.tsx:28-30 | a plain segment's label is the segment with hyphens as spaces and the first character upper-cased |
| Breadcrumbs.IsDetail | apps/admin/src/ui/layout/Breadrcumbs/Breadcrumbs.tsx:39-46 | a detail screen needs at least two segments: a content list followed by something other than `new`/`create` |
| Breadcrumbs.TitleRequest | apps/admin/src/ui/layout/Breadrcumbs/Breadcrumbs.tsx:48-56 | a title is fetched exactly on a detail screen, from `/api/pages/` plus the last segment, for posts as well as pages |
| Breadcrumbs.OnTitleResponse | apps/admin/src/ui/layout/Breadrcumbs/Breadcrumbs.tsx:57-64 | a string `item.title` (else `title`) in the response is stored with the id it was fetched for; a failed request, a non-ok response or a non-string title leaves the state unchanged |
| Breadcrumbs.Items | apps/admin/src/ui/layout/Breadrcumbs/Breadcrumbs.tsx:69-83 | one crumb per segment; crumb i links to the path of the first i+1 segments; only the last is marked last; a crumb shows the loaded title exactly when it is the detail id the title was loaded for, otherwise `toLabel` of it and its predecessor |
| Breadcrumbs.Trail | apps/admin/src/ui/layout/Breadrcumbs/Breadcrumbs.tsx:85-97 | a path with no segments shows one link to `/admin` labelled "Dashboard"; otherwise the items |
| Breadcrumbs.FetchedTitleShown | apps/admin/src/ui/layout/Breadrcumbs/Breadcrumbs.tsx:51-83 | for every detail segment list, once the fetched string title arrives (the title stored for the last segment), the last crumb of the items shows it |
| ContentValidation.OrDefault | apps/admin/src/lib/validation/page.ts:17-18 | `.default(d)`: an accepted value is kept, otherwise the default is used |
| ContentValidation.OrNone | apps/admin/src/lib/validation/page.ts:36-39 | `.optional()`: an accepted value is present, anything else is absent |
| ContentValidation.KindField | apps/admin/src/lib/validation/page.ts:10 | absent exactly for `undefined`; accepted exactly for the strings `PAGE` and `POST`, as the kind they name |
| ContentValidation.StatusField | apps/admin/src/lib/validation/page.ts:11-14 | absent exactly for `undefined`; accepted exactly for `DRAFT` and `PUBLISHED`, as the status they name |
| ContentValidation.TextField | apps/admin/src/lib/validation/page.ts:17-18 | `string()`: a string is kept, a number is cast to its text, `null`, arrays and objects are rejected |
| ContentValidation.TrimmedField | apps/admin/src/lib/validation/page.ts:15-16 | `string().trim().min(1)`: accepted exactly when the cast text trims to something non-empty, and the value is the trimmed text |
| ContentValidation.TagId | apps/admin/src/lib/validation/page.ts:5 | one tag id: accepted exactly as a non-empty trimmed text |
| ContentValidation.Traverse | apps/admin/src/lib/validation/page.ts:3-6 | an array is accepted exactly when every element is, and then element-wise |
| ContentValidation.TagIdItems | apps/admin/src/lib/validation/page.ts:3-6 | every element accepted, same length, each the trimmed id |
| ContentValidation.TagIdsField | apps/admin/src/lib/validation/page.ts:3-6 | absent exactly for `undefined`; an array whose elements all pass is accepted as their trimmed ids; anything else is rejected |
| ContentValidation.Issues | apps/admin/src/lib/validation/page.ts:9-22 | no issue exactly when every field passes; `slug` is reported exactly when the slug fails |
| ContentValidation.CreateFrom | apps/admin/src/lib/validation/page.ts:9-22 | accepted exactly when the four required fields are present and good and no optional field is bad; the input is built from the field values with `""` and `[]` defaults |
| ContentValidation.ParsePage | apps/admin/src/lib/validation/page.ts:9-22 | `PageSchema`: an object with a valid type and status, a non-blank slug and title and acceptable optional fields is accepted as a well-formed input with type/status spelled as given, trimmed slug/title and default `""`/`[]`; anything else fails with a non-empty list of failing paths |
| ContentValidation.TrimmedFieldOfTrimmed | apps/admin/src/lib/validation/page.ts:15-16 | a non-empty trimmed string passes as itself |
| ContentValidation.TagIdsFieldOfIds | apps/admin/src/lib/validation/page.ts:3-6 | a list of non-empty trimmed ids passes as itself |
| ContentValidation.KindFieldOfName | apps/admin/src/lib/validation/page.ts:10 | each kind's name is accepted as that kind |
| ContentValidation.StatusFieldOfName | apps/admin/src/lib/validation/page.ts:11-14 | each status's name is accepted as that status |
| ContentValidation.TextFieldOfText | apps/admin/src/lib/validation/page.ts:17-18 | any string passes as itself |
| ContentValidation.CreateFromGood | apps/admin/src/lib/validation/page.ts:9-22 | seven accepted fields make exactly the input they spell out |
| ContentValidation.FieldsAccepted | apps/admin/src/lib/validation/page.ts:9-22 | the fields of a well-formed input, written as JSON, are accepted as that input |
| ContentValidation.ParsePageComplete | apps/admin/src/lib/validation/page.ts:9-22 | every well-formed input is accepted, exactly, from any object carrying its fields (parsing is complete as well as sound) |
| ContentValidation.ParsePageTrims | apps/admin/src/lib/validation/page.ts:15-16 | surrounding spaces in slug and title are trimmed, not rejected |
| ContentValidation.ParseUpdate | apps/admin/src/lib/validation/page.ts:30-42 | `PageUpdateSchema`: every field optional with the create rules; an absent field stays absent, except `tagIds`, which defaults to `[]` |
| ContentValidation.CreateBodyIsUpdate | apps/admin/src/lib/validation/page.ts:9-42 | a body the create schema accepts is also an update setting every field to the same values |
| ContentValidation.EmptyUpdate | apps/admin/src/lib/validation/page.ts:30-42 | `{}` is a valid update that sets nothing and has `tagIds` `[]` |
| ContentValidation.MinString | apps/admin/src/components/auth/ResetPasswordForm/ResetPasswordForm.validation.ts:5-7 | `z.string().min(n, message)`: no issue exactly for a string of at least n characters; a short string gives the message, a non-string a type issue |
| ContentValidation.ParseResetPassword | apps/admin/src/components/auth/ResetPasswordForm/ResetPasswordForm.validation.ts:3-12 | accepted exactly for an object with a non-empty token and equal passwords of at least 8 characters; a failure lists its issues, with the mismatch reported on `confirm` |
| ContentValidation.ResetMismatch | apps/admin/src/components/auth/ResetPasswordForm/ResetPasswordForm.validation.ts:9-12 | two different password strings always fail on `confirm`, whatever their lengths |
| ContentValidation.ParseSignUp | apps/admin/src/components/auth/SignUpForm/SignUpForm.validation.ts:3-12 | accepted exactly for an object whose name is absent, `""` or 2 to 64 characters, whose email passes the email check and whose password has at least 8 characters; the accepted values are the given ones |
| Json.NumberText | apps/admin/src/lib/validation/page.ts:17 | the text a number is cast to is never empty |
| Json.Strs | apps/admin/src/lib/services/post.client.ts:19-20 | a list of strings as JSON strings, element by element |
| Json.Get | apps/admin/src/ui/utils/editorForm.ts:24 | a property read finds something only on an object, and what it finds is a smaller value |
| Json.Lookup | apps/admin/src/ui/utils/editorForm.ts:24 | a key no property has reads as `undefined` |
| Json.LookupFound | apps/admin/src/ui/utils/editorForm.ts:24 | a value found under a key is the value of a property with that key |
| Json.LookupFirst | apps/admin/src/ui/utils/editorForm.ts:24 | a key in the first property is read from it |
| ContentDto.TruthyIds | apps/admin/src/lib/services/post.client.ts:19-20 | `map(tag => tag.id).filter(id => !!id)`: never longer than the tags, and every id kept is truthy |
| ContentDto.TruthyIdsAppend | apps/admin/src/lib/services/post.client.ts:19-20 | the filter keeps order and duplicates: it distributes over concatenation |
| ContentDto.TruthyIdsMembers | apps/admin/src/lib/services/post.client.ts:19-20 | an id is kept exactly when it is truthy and some tag carries it |
| ContentDto.TagIdsOf | apps/admin/src/lib/services/post.client.ts:19-20 | `?? []`: no tag array gives no ids; otherwise at most one id per tag, each truthy |
| ContentDto.TagJson | apps/admin/src/lib/services/post.client.ts:20 | a picked tag, as the form holds it, reads back its id |
| ContentDto.TagsJson | apps/admin/src/lib/services/post.client.ts:20 | one JSON tag per picked tag |
| ContentDto.IdsOf | apps/admin/src/lib/services/post.client.ts:20 | the picked tags' ids in order |
| ContentDto.SelectionTagIds | apps/admin/src/lib/services/post.client.ts:19-20 | the ids sent for a selection of tags with non-empty ids are exactly their ids, in order |
| ContentDto.PostValuesToDto | apps/admin/src/lib/services/post.client.ts:18-33 | the body has exactly the nine post fields: type `POST`, `excerpt` defaulting to `""` when nullish, the tag ids, and every other field copied |
| ContentDto.PageValuesToDto | apps/admin/src/lib/services/page.client.ts:10-20 | every field but `tags` is copied, `tags` is dropped and `tagIds` holds the tag ids |
| ContentDto.GetObjectOf | apps/admin/src/lib/services/post.client.ts:48 | reading a field of the serialised body reads the record's field |
| ContentDto.PostDtoAccepted | apps/admin/src/lib/services/post.client.ts:18-33 | the body the post editor sends for a well-formed post is accepted by the create schema as exactly that post |
| ContentForms.AsMap | apps/admin/src/ui/layout/PostForm/PostForm.tsx:60-62 | the submitted record holds the slug, the title and every other field with its value, and nothing else |
| ContentForms.WithField | apps/admin/src/ui/layout/PostForm/PostForm.tsx:47-49 | `{ ...prev, [key]: value }`: setting the slug changes only the slug, setting another field leaves slug and title alone |
| ContentForms.WithFieldAsMap | apps/admin/src/ui/layout/PostForm/PostForm.tsx:47-49 | seen as the submitted record, `setField` overwrites exactly the named field |
| ContentForms.TitleChanged | apps/admin/src/ui/layout/PostForm/PostForm.tsx:52-58 | the title is set and other fields kept; the slug is kept if edited by hand, else it becomes the title's slug |
| ContentForms.TitleChangedSyncs | apps/admin/src/ui/layout/PostForm/PostForm.tsx:52-58 | after a title change, a slug not edited by hand is the title's slug |
| ContentForms.OtherFieldKeepsSynced | apps/admin/src/ui/layout/PostForm/PostForm.tsx:47-49 | writing any other field keeps a slug that follows the title following it |
| ContentForms.SlugInputIsSlug | apps/admin/src/ui/layout/PostForm/PostForm.tsx:116-119 | a slug typed by hand is stored slugified, so it is always a slug |
| ContentForms.TitleChangedIdempotent | apps/admin/src/ui/layout/PostForm/PostForm.tsx:52-58 | typing the same title again changes nothing |
| ContentForms.SlugOfEmpty | apps/admin/src/lib/utils/slugify.ts:7-17 | the empty title's slug is empty |
| ContentForms.PostInitiallyEdited | apps/admin/src/ui/layout/PostForm/PostForm.tsx:40-44 | the slug counts as edited only when title and slug are both filled in, and then exactly when the slug is not the title's slug |
| ContentForms.PostFormStartsSynced | apps/admin/src/ui/layout/PostForm/PostForm.tsx:36-44 | a post form with a title starts with a slug following the title unless it counts as edited |
| ContentForms.PageFormStartsSynced | apps/admin/src/ui/layout/PageForm/PageForm.tsx:29-31 | a page form starts synced whatever its values: an empty slug is filled from the title and then follows it |
| ContentForms.PostForm.constructor | apps/admin/src/ui/layout/PostForm/PostForm.tsx:36-44 | the form holds the built initial values; `slugEdited` as `PostInitiallyEdited` |
| ContentForms.PostForm.SetField | apps/admin/src/ui/layout/PostForm/PostForm.tsx:47-49 | exactly the named field changes; `slugEdited` is kept |
| ContentForms.PostForm.OnTitleChange | apps/admin/src/ui/layout/PostForm/PostForm.tsx:52-58 | the form becomes `TitleChanged` of the old form under the current `slugEdited` |
| ContentForms.PostForm.OnSlugInput | apps/admin/src/ui/layout/PostForm/PostForm.tsx:116-119 | `slugEdited` becomes true and the slug becomes the typed text slugified |
| ContentForms.ListingKeyName | apps/admin/src/ui/layout/PageForm/PageForm.tsx:45-54 | the listing keys are neither slug, title nor tags |
| ContentForms.PageForm.constructor | apps/admin/src/ui/layout/PageForm/PageForm.tsx:29-31 | the form holds the built initial values; `slugEdited` is true exactly when the initial slug is non-empty |
| ContentForms.PageForm.SetField | apps/admin/src/ui/layout/PageForm/PageForm.tsx:33-35 | exactly the named field changes; `slugEdited` is kept |
| ContentForms.PageForm.OnTitleChange | apps/admin/src/ui/layout/PageForm/PageForm.tsx:37-43 | the form becomes `TitleChanged` of the old form under the current `slugEdited` |
| ContentForms.PageForm.OnSlugInput | apps/admin/src/ui/layout/PageForm/PageForm.tsx:133-136 | `slugEdited` becomes true and the slug becomes the typed text slugified |
| ContentForms.PageForm.HandleListingChange | apps/admin/src/ui/layout/PageForm/PageForm.tsx:45-54 | writes the named listing field and nothing else |
| ContentService.Message | apps/admin/src/lib/services/content.shared.ts:10-29 | exactly the service's own error classes (validation, conflict, not found) carry a message |
| ContentService.IndexOfId | apps/admin/src/lib/repos/pageRepo.ts:23-25 | a position found holds a row with the id; none is found exactly when no row has it |
| ContentService.FindById | apps/admin/src/lib/repos/pageRepo.ts:23-25 | `findUnique` by id returns a row of the table with that id, and nothing exactly when none has it |
| ContentService.FindBySlug | apps/admin/src/lib/repos/pageRepo.ts:30-32 | `findUnique` by slug returns a row with that slug, and nothing exactly when none has it |
| ContentService.FindByIdUnique | apps/admin/src/lib/repos/pageRepo.ts:23-25 | with unique ids the row found by an id is the one row carrying it |
| ContentService.FindBySlugUnique | apps/admin/src/lib/repos/pageRepo.ts:30-32 | with unique slugs the row found by a slug is the one row carrying it |
| ContentService.ByKey | apps/admin/src/lib/repos/pageRepo.ts:22-36 | a row found is of the requested kind and has the key as id or the key's slug as slug |
| ContentService.GetPageById | apps/admin/src/lib/repos/pageRepo.ts:12-37 | a blank reference finds nothing; a row found is of the kind and has the trimmed reference as id or its slug as slug |
| ContentService.GetPageByIdOfKey | apps/admin/src/lib/repos/pageRepo.ts:16-36 | a non-blank reference is looked up by its trimmed text, then by that text's slug |
| ContentService.GetPageByIdFindsId | apps/admin/src/lib/repos/pageRepo.ts:22-27 | a row is found by its id, whatever spaces surround the reference |
| ContentService.GetPageByIdFindsSlug | apps/admin/src/lib/repos/pageRepo.ts:29-34 | a row is found by its slug when no row has that text as id |
| ContentService.ByKeyFindsSlug | apps/admin/src/lib/repos/pageRepo.ts:29-34 | the slug fallback finds the row with that slug when no row has it as id |
| ContentService.SlugIsOwnKey | apps/admin/src/lib/repos/pageRepo.ts:16-31 | a slug is its own trim and its own slug |
| ContentService.OfKind | apps/admin/src/lib/services/post.server.ts:79 | `where: { type }`: exactly the rows of that kind |
| ContentService.RemoveId | apps/admin/src/lib/repos/pageRepo.ts:140-142 | `delete({ where: { id } })`: exactly the rows with another id remain |
| ContentService.RemoveIdUnique | apps/admin/src/lib/repos/pageRepo.ts:140-142 | deleting keeps ids and slugs unique |
| ContentService.SafePage | apps/admin/src/lib/services/page.server.ts:69 | `Math.max(1, page)`: at least 1 and at least the page asked for, and one of the two |
| ContentService.SafeLimit | apps/admin/src/lib/services/page.server.ts:70 | between 1 and 100; a limit in range is kept, below goes to 1, above to 100 |
| ContentService.PageCount | apps/admin/src/lib/services/page.server.ts:80 | `Math.ceil(total / limit)`: zero exactly for no rows; the fewest pages of `limit` rows holding every row |
| ContentService.PageCountAbove | apps/admin/src/lib/services/page.server.ts:71-80 | a page whose earlier pages do not hold every row is within the page count |
| ContentService.Window | apps/admin/src/lib/services/post.server.ts:81-82 | `skip`/`take`: at most `take` rows, the rows from `skip` on in order, none past the end |
| ContentService.PagesCover | apps/admin/src/lib/services/post.server.ts:72-102 | every row appears on exactly the page its position says, and that page is within the page count: paging loses no row |
| ContentService.WindowAt | apps/admin/src/lib/services/post.server.ts:81-82 | row m of the window is row skip+m of the table |
| ContentService.NewRow | apps/admin/src/lib/repos/pageRepo.ts:99-116 | the inserted row has the given id, the service's kind, a slugified slug, and the input's status and title |
| ContentService.Updated | apps/admin/src/lib/repos/pageRepo.ts:122-134 | id and author are kept, the kind becomes the service's, and each given field (slug slugified) replaces the old one |
| ContentService.ReplaceUnique | apps/admin/src/lib/repos/pageRepo.ts:122-134 | replacing a row by one with the same id and an unused slug keeps ids and slugs unique |
| ContentService.DeleteAsWritten | apps/admin/src/lib/services/page.server.ts:57-63 | as written: no row found fails with not found; a deletion removes the row whose id is the reference itself |
| ContentService.Delete | apps/admin/src/lib/services/page.server.ts:57-63 | intended: fails with not found exactly when no row is found, and otherwise removes exactly the row that was found |
| ContentService.DeleteBySlugAsWritten | apps/admin/src/lib/services/page.server.ts:57-63 | as written, deleting by a slug passes the existence check and then fails in the database; the intended version deletes the page |
| ContentService.DeleteByIdAgrees | apps/admin/src/lib/services/page.server.ts:57-63 | by its exact id both versions delete the same row |
| ContentService.DeleteOfFound | apps/admin/src/lib/services/post.server.ts:60-67 | a row found by its id is deleted by both versions |
| ContentService.UpdateWithoutTagIdsClearsTags | apps/admin/src/lib/services/page.server.ts:38-51 | an update body without `tagIds` leaves the page with no tag links |
| ContentService.ContentStore.constructor | apps/admin/src/lib/services/content.shared.ts:31-34 | an empty page table beside valid tag tables |
| ContentService.ContentStore.ApplyTags | apps/admin/src/lib/services/content.shared.ts:31-34 | the normalised ids replace the page's links; an id without a tag, or a page that is not in the table while there are ids, fails and changes nothing; the tag rows never change |
| ContentService.ContentStore.Create | apps/admin/src/lib/services/page.server.ts:19-33 | an invalid body fails with its issues and changes nothing; a taken slug fails with a conflict and changes nothing; otherwise the new row is appended and the tags are linked |
| ContentService.ContentStore.InsertLinked | apps/admin/src/lib/services/page.server.ts:23-32 | the row is appended; linking succeeds exactly when every id names a tag, and then replaces the page's links; a failed link leaves the row inserted |
| ContentService.ContentStore.Update | apps/admin/src/lib/services/page.server.ts:38-52 | an invalid body fails and changes nothing; an unknown id fails; a slug taken by another row is a conflict; otherwise the row is updated with the service's kind and the links replaced by the given ids or none |
| ContentService.ContentStore.DeleteServiceAsWritten | apps/admin/src/lib/services/page.server.ts:57-63 | as written: not found changes nothing; found by slug only fails in the database and changes nothing; found by id removes it |
| ContentService.ContentStore.DeleteService | apps/admin/src/lib/services/page.server.ts:57-63 | the table becomes `Delete`'s result, or not found with nothing changed |
| ContentService.ContentStore.List | apps/admin/src/lib/services/page.server.ts:68-82 | page and limit are the clamped ones, `total` counts the kind's rows and `pages` is their page count; items are at most `limit` rows of the kind, each the one at its position in the kind's rows |
| ContentService.ContentStore.PostWithTags | apps/admin/src/lib/services/post.server.ts:109-118 | not found exactly when no post is found; otherwise the post found and exactly the tags linked to it |
| ContentService.AppendUnique | apps/admin/src/lib/repos/pageRepo.ts:99-116 | appending a row with a new id and an unused slug keeps ids and slugs unique |
| TagRepo.NormalizeItems | apps/admin/src/lib/repos/tagRepo.ts:26-29 | every id kept is trimmed and non-blank, and there are no more ids than elements |
| TagRepo.NormalizeTagIds | apps/admin/src/lib/repos/tagRepo.ts:24-30 | anything but an array gives no ids; an array gives trimmed, non-blank ids, at most one per element |
| TagRepo.NormalizeOne | apps/admin/src/lib/repos/tagRepo.ts:27-29 | a single element gives its trimmed self exactly when it is a string with content, and nothing otherwise |
| TagRepo.NormalizeAppend | apps/admin/src/lib/repos/tagRepo.ts:26-29 | normalising works element by element: the ids of two lists joined are the ids of each, in order, duplicates kept |
| TagRepo.NormalizeCons | apps/admin/src/lib/repos/tagRepo.ts:26-29 | the ids of a list are the first element's contribution followed by the rest's ids |
| TagRepo.NormalizeIdempotent | apps/admin/src/lib/repos/tagRepo.ts:24-30 | ids that are already trimmed and non-blank come back unchanged when sent again |
| TagRepo.BySlug | apps/admin/src/lib/repos/tagRepo.ts:71-73 | the unique lookup finds a row carrying the slug, and finds none exactly when no row carries it |
| TagRepo.FindTagBySlug | apps/admin/src/lib/repos/tagRepo.ts:70-78 | a result is a tag row with that slug; with unique slugs, no result means the row with that slug, if any, is not a tag |
| TagRepo.FindTagByName | apps/admin/src/lib/repos/tagRepo.ts:56-65 | a result is a tag whose name equals the query ignoring case; no result means no tag has such a name |
| TagRepo.Slugs | apps/admin/src/lib/repos/tagRepo.ts:71-73 | the slugs the unique constraint covers are those of every row, whatever its type |
| TagRepo.Relinked | apps/admin/src/lib/repos/tagRepo.ts:135-150 | links of other pages stay; the page is linked to exactly the given ids |
| TagRepo.RelinkedTags | apps/admin/src/lib/repos/tagRepo.ts:121-150 | after replacing a page's tags, the page shows exactly the tags whose ids were given |
| TagRepo.RelinkedOthers | apps/admin/src/lib/repos/tagRepo.ts:135-150 | replacing one page's tags leaves what every other page shows unchanged |
| TagRepo.Without | apps/admin/src/lib/repos/tagRepo.ts:102-104 | the rows left are exactly the rows with another id |
| TagRepo.DeleteAsWrittenDropsCategory | apps/admin/src/lib/repos/tagRepo.ts:100-111 | deleting a category's id through the tag delete removes the category and still reports no tag deleted |
| TagRepo.DeleteVersionsAgree | apps/admin/src/lib/repos/tagRepo.ts:100-116 | where the id names no row of another type, the delete as written and the tag-only delete agree |
| TagRepo.ById | apps/admin/src/lib/repos/tagRepo.ts:102-104 | the lookup finds a row with that id, and finds none exactly when no row has it |
| TagRepo.DeleteTagSound | apps/admin/src/lib/repos/tagRepo.ts:100-116 | a tag is reported exactly when a tag with that id existed; then that row and its links go and nothing else, otherwise nothing changes |
| TagRepo.WithoutOne | apps/admin/src/lib/repos/tagRepo.ts:102-104 | removing the one row with an id shortens the table by one |
| TagRepo.WithoutNone | apps/admin/src/lib/repos/tagRepo.ts:112-115 | deleting an id no row has leaves the table as it was |
| TagRepo.TagStore.constructor | apps/admin/src/lib/repos/tagRepo.ts:1 | the store behind the database client starts with no rows and no links and keeps its constraints |
| TagRepo.TagStore.CreateTagRecord | apps/admin/src/lib/repos/tagRepo.ts:84-94 | a slug already in the table is a unique violation and changes nothing; otherwise the new tag row is appended under the fresh id and returned |
| TagRepo.TagStore.DeleteTagRecordAsWritten | apps/admin/src/lib/repos/tagRepo.ts:100-116 | the new table, links and report are those of the delete as written |
| TagRepo.TagStore.DeleteTagRecord | apps/admin/src/lib/repos/tagRepo.ts:100-116 | the new table, links and report are those of the tag-only delete, and the constraints still hold |
| TagRepo.TagStore.SetTagsForPage | apps/admin/src/lib/repos/tagRepo.ts:135-150 | succeeds exactly when every id names a taxonomy row and, if there is any id, the page id names a page; then the page's links are replaced, otherwise a foreign-key violation changes nothing |
| TagRepo.DeleteKeepsValid | apps/admin/src/lib/repos/tagRepo.ts:100-116 | the tag-only delete keeps ids and slugs unique and every link pointing at a row |
| TagRepo.WithoutDistinct | apps/admin/src/lib/repos/tagRepo.ts:102-104 | removing rows keeps ids and slugs unique |
| TagService.JoinItemsStrings | apps/admin/src/lib/services/tag.server.ts:34-35 | joining an array of strings gives the strings joined by the separator |
| TagService.GetValidationMessage | apps/admin/src/lib/services/tag.server.ts:27-48 | an `errors` array with at least one entry gives its entries joined by ", "; otherwise (no `errors`, a non-array `errors` or an empty one) a string `message` is the text; failing both, the text is "Invalid tag data" |
| TagService.SchemaErrorMessage | apps/admin/src/lib/services/tag.server.ts:27-48 | a schema error's message is its messages joined by ", " |
| TagService.MessageFallback | apps/admin/src/lib/services/tag.server.ts:38-45 | without a usable errors array a string message is returned as it is, also when errors is empty |
| TagService.ValidateName | apps/admin/src/lib/validation/tag.ts:3-5 | a name is accepted exactly when it is not blank once trimmed; it is then trimmed, else "Name is required" |
| TagService.SafeParseRejectsAll | apps/admin/src/lib/services/tag.server.ts:73-77 | the validation step as written fails with a type error even for a name the schema accepts |
| TagService.Hyphenated | apps/admin/src/lib/services/tag.server.ts:57-58 | the fallback slug of a non-empty text is non-empty and holds no white space |
| TagService.SlugOrHyphenated | apps/admin/src/lib/services/tag.server.ts:86 | the slug base of a non-empty name is non-empty and holds no white space |
| TagService.SearchKey | apps/admin/src/lib/services/tag.server.ts:53-59 | a query under two characters once trimmed gives no lookup; otherwise the key is non-empty, has no white space and is the slug when there is one |
| TagService.CandidateInjective | apps/admin/src/lib/services/tag.server.ts:86-94 | different attempts of the slug loop try different slugs |
| TagService.FirstFreeUnique | apps/admin/src/lib/services/tag.server.ts:86-94 | the first candidate not taken is unique |
| TagService.UniqueSlug | apps/admin/src/lib/services/tag.server.ts:86-94 | the loop ends on the first candidate among base, base-2, base-3, ... that is not taken |
| TagService.TagSlugs | apps/admin/src/lib/services/tag.server.ts:91-92 | every slug the loop as written sees as taken belongs to a row |
| TagService.SlugLoopMissesCategory | apps/admin/src/lib/services/tag.server.ts:86-100 | with a category holding the slug, the loop as written settles on that slug and the insert fails |
| TagService.CreateValidated | apps/admin/src/lib/services/tag.server.ts:79-100 | an existing tag with the name ignoring case is returned unchanged; otherwise a tag is inserted under the first slug no row carries |
| TagService.CreateValidatedAsWritten | apps/admin/src/lib/services/tag.server.ts:79-100 | as above, but the slug is the first no tag carries; when another taxonomy holds it the call fails with "Failed to create tag" and changes nothing |
| TagService.CreateTag | apps/admin/src/lib/services/tag.server.ts:71-101 | a blank name is a validation error that changes nothing; otherwise the trimmed name is created or found as above |
| TagService.CreateTagAsWritten | apps/admin/src/lib/services/tag.server.ts:71-77 | every call fails with a type error |
| TagService.DeleteTagService | apps/admin/src/lib/services/tag.server.ts:106-112 | a blank id is "ID is required" and changes nothing; otherwise the tag-only delete runs and success means a tag was deleted, failure "Tag not found" |
| TagService.DeleteTagServiceAsWritten | apps/admin/src/lib/services/tag.server.ts:106-112 | as above over the delete as written, which may remove a row of another type |
| TagService.SetTagsForPageService | apps/admin/src/lib/services/tag.server.ts:128-138 | the raw ids are normalised; success means every id named a row and, if there was any id, the page exists; the page's links were then replaced, and failure changes nothing |
| TagClient.TagJsonRoundTrip | apps/admin/src/lib/services/tag.client.ts:8-18 | every tag the API sends passes the guard and reads back as itself |
| TagClient.AsTagValues | apps/admin/src/lib/services/tag.client.ts:23-25 | a guarded array stands for as many tags as it has elements, element by element |
| TagClient.TagsToJson | apps/admin/src/lib/services/tag.client.ts:23-25 | a list of tags is sent as an array with one element per tag |
| TagClient.TagsJsonRoundTrip | apps/admin/src/lib/services/tag.client.ts:23-25 | every list of tags the API sends passes the array guard and reads back as itself |
| TagClient.UnwrapOkData | apps/admin/src/lib/services/tag.client.ts:48-53 | an object with a data property gives that property, anything else is returned as it is |
| TagClient.UnwrapWrapped | apps/admin/src/lib/services/tag.client.ts:48-53 | a payload wrapped as an object under data and the bare payload unwrap to the same value |
| TagClient.LoadTagOptions | apps/admin/src/lib/services/tag.client.ts:61-79 | a failed response gives no options; otherwise the items of a paginated payload, else a bare tag array, else nothing |
| TagClient.LoadTagOptionsShapes | apps/admin/src/lib/services/tag.client.ts:61-79 | a bare array and an items object, each wrapped under data or not, all deliver the same tags |
| TagClient.LoadEntityTags | apps/admin/src/lib/services/tag.client.ts:141-155 | only a tag array, wrapped or not, gives tags; a failed response or any other payload gives none |
| TagClient.CreateTagResult | apps/admin/src/lib/services/tag.client.ts:87-134 | a failed response throws "Failed to create tag"; a payload that is a tag is returned as it is |
| TagClient.FallbackId | apps/admin/src/lib/services/tag.client.ts:116-121 | a string id is kept, a numeric id is written out in decimal, anything else gets a fresh id |
| TagClient.Fallback | apps/admin/src/lib/services/tag.client.ts:111-133 | a non-blank string name and slug are kept; otherwise the name falls back to the label and the slug is derived from the name |
| TagClient.SlugFromNameShape | apps/admin/src/lib/services/tag.client.ts:131 | a slug derived from a name has no white space and no upper-case letter |
| TagClient.AsTagsWithUsage | apps/admin/src/lib/services/tag.client.ts:182-198 | a guarded array stands for one counted tag per element, with its tag fields and its count |
| TagClient.LoadTagsAdmin | apps/admin/src/lib/services/tag.client.ts:204-221 | a bare array of counted tags is taken, else the items of an object, else nothing; a failed response gives nothing |
| TagClient.AdminEntriesAreTags | apps/admin/src/lib/services/tag.client.ts:204-221 | every admin entry is the counted tag the server sent at that position |
| TagSelect.SelectedOf | apps/admin/src/ui/components/TagMultiSelect/TagMultiSelect.tsx:33-35 | an array value is the selection as it is, anything else an empty selection |
| TagSelect.Selectable | apps/admin/src/ui/components/TagMultiSelect/TagMultiSelect.tsx:56-59 | the dropdown offers exactly the options whose id is not selected, never more than there are options |
| TagSelect.SelectableAppend | apps/admin/src/ui/components/TagMultiSelect/TagMultiSelect.tsx:56-59 | the filter keeps the options' order |
| TagSelect.WithoutId | apps/admin/src/ui/components/TagMultiSelect/TagMultiSelect.tsx:71-73 | the tags left are exactly those with another id |
| TagSelect.WithoutIdAppend | apps/admin/src/ui/components/TagMultiSelect/TagMultiSelect.tsx:71-73 | removal keeps the remaining tags in their order |
| TagSelect.WithoutIdDistinct | apps/admin/src/ui/components/TagMultiSelect/TagMultiSelect.tsx:71-73 | removing a tag keeps the selected ids distinct |
| TagSelect.AppendDistinct | apps/admin/src/ui/components/TagMultiSelect/TagMultiSelect.tsx:62-66 | appending a tag whose id is not selected keeps the selected ids distinct |
| TagSelect.NameTaken | apps/admin/src/ui/components/TagMultiSelect/TagMultiSelect.tsx:118-120 | true exactly when some option's name equals the query ignoring case |
| TagSelect.ShowCreate | apps/admin/src/ui/components/TagMultiSelect/TagMultiSelect.tsx:116-120 | the create entry shows exactly when the trimmed query is not blank and no selectable option has that name ignoring case |
| TagSelect.TagMultiSelect.constructor | apps/admin/src/ui/components/TagMultiSelect/TagMultiSelect.tsx:33-38 | the selection is the value when it is an array, the query is empty and the dropdown closed with no options |
| TagSelect.TagMultiSelect.Type | apps/admin/src/ui/components/TagMultiSelect/TagMultiSelect.tsx:37-38 | typing stores the text and opens the dropdown, and changes nothing else |
| TagSelect.TagMultiSelect.LoadOptions | apps/admin/src/ui/components/TagMultiSelect/TagMultiSelect.tsx:44-48 | the search results become the options, and nothing else changes |
| TagSelect.TagMultiSelect.AddTag | apps/admin/src/ui/components/TagMultiSelect/TagMultiSelect.tsx:62-68 | a tag already selected changes nothing; any other is appended and the search is reset; selected ids stay distinct |
| TagSelect.TagMultiSelect.RemoveTag | apps/admin/src/ui/components/TagMultiSelect/TagMultiSelect.tsx:71-73 | every entry with the tag's id leaves the selection, and selected ids stay distinct |
| TagSelect.TagMultiSelect.KeyDown | apps/admin/src/ui/components/TagMultiSelect/TagMultiSelect.tsx:92-114 | Enter on a non-blank query appends the first selectable option, else the created tag, and resets the search (empty query, closed, no options), except that an already selected created tag changes nothing; Backspace on an empty query removes the last tag and leaves the search as it was; Escape only closes the dropdown; other keys change nothing; selected ids stay distinct |
| TagSelect.TagMultiSelect.CreateClick | apps/admin/src/ui/components/TagMultiSelect/TagMultiSelect.tsx:122-126 | a blank query changes nothing; otherwise a created tag not yet selected is appended and the search is reset, and one already selected changes nothing; selected ids stay distinct |
| SlateSchema.AllTextsIff | apps/admin/src/ui/components/SlateEditor/slate.d.ts:17-20 | a text block's children are exactly the runs of text leaves |
| SlateSchema.AllItemsIff | apps/admin/src/ui/components/SlateEditor/slate.d.ts:33-46 | a list's children are exactly runs of list items holding text leaves |
| SlateSchema.WellFormedIff | apps/admin/src/ui/components/SlateEditor/slate.d.ts:53-60 | a document is well formed exactly when every top-level node is a text block or a list of items |
| SlateSchema.FlatIff | apps/admin/src/ui/components/SlateEditor/slate.d.ts:53-60 | a run of blocks is flat exactly when every node in it is a text block |
| SlateSchema.EmptyDocWellFormed | apps/admin/src/ui/components/SlateEditor/slate.constants.ts:3-8 | the empty editor value is one well-formed paragraph |
| SlateSchema.BlocksAreTextBlocks | apps/admin/src/ui/components/SlateEditor/slate.d.ts:33-46 | the blocks of a well-formed document, list items in place of their lists, are text blocks |
| SlateSchema.BlocksAppend | apps/admin/src/ui/components/SlateEditor/slate.d.ts:53-60 | the blocks of two documents joined are the blocks of each, in order |
| SlateSchema.WellFormedAppend | apps/admin/src/ui/components/SlateEditor/slate.d.ts:53-60 | joining two well-formed documents gives a well-formed document |
| SlateTree.PrefixSuffixBlocks | apps/admin/src/ui/components/SlateEditor/slate.utils.ts:61-66 | cutting a document at a block splits its blocks there and keeps both halves well formed, splitting a list if need be |
| SlateTree.CutAppend | apps/admin/src/ui/components/SlateEditor/slate.utils.ts:61-66 | cutting a joined document where its first part ends gives both parts back |
| SlateTree.Unwrap | apps/admin/src/ui/components/SlateEditor/slate.utils.ts:61-66 | unwrapping with splitting keeps the document well formed and its blocks in order, and the selected blocks end up at the top level |
| SlateTree.UnwrapShape | apps/admin/src/ui/components/SlateEditor/slate.utils.ts:61-66 | unwrapping keeps the pieces before and after the selection and lifts the selected blocks between them |
| SlateTree.MarkTexts | apps/admin/src/ui/components/SlateEditor/slate.utils.ts:26-30 | setting or removing a mark on every text leaf keeps their number and keeps them text leaves |
| SlateTree.Apply | apps/admin/src/ui/components/SlateEditor/slate.utils.ts:69-100 | a sound update turns a text block into a text block, never turns a non-list into a list, and only a type change turns a list into something else |
| SlateTree.SetBlocksBlocks | apps/admin/src/ui/components/SlateEditor/slate.utils.ts:69-100 | setNodes on the lowest elements updates the selected blocks and only those, keeping the list structure |
| SlateTree.SetBlocksWellFormed | apps/admin/src/ui/components/SlateEditor/slate.utils.ts:39-45 | a property update, or retyping to list items, keeps a document well formed |
| SlateTree.SetBlocksOutside | apps/admin/src/ui/components/SlateEditor/slate.utils.ts:39-45 | a selection that misses the document changes nothing |
| SlateTree.SetBlocksFlat | apps/admin/src/ui/components/SlateEditor/slate.utils.ts:69-100 | on a run of top-level blocks setNodes is the update applied block by block |
| SlateTree.SetBlocksTwice | apps/admin/src/ui/components/SlateEditor/slate.utils.ts:26-30 | two property updates that cancel on every selected block cancel on the whole document |
| SlateTree.TouchedLifted | apps/admin/src/ui/components/SlateEditor/slate.utils.ts:32-37 | in an unwrapped document the selection touches exactly the selected blocks |
| SlateTree.TouchedBlocks | apps/admin/src/ui/components/SlateEditor/slate.utils.ts:32-37 | among the elements the selection touches, the blocks are exactly the selected blocks |
| SlateTree.SelectedItemsRange | apps/admin/src/ui/components/SlateEditor/slate.utils.ts:32-37 | the selected items of a run are the slice the selection covers |
| SlateTree.WrappedShape | apps/admin/src/ui/components/SlateEditor/slate.utils.ts:102-116 | wrapping the selected items in a new list keeps the document well formed and the new list covers exactly the selection |
| SlateUtils.ListKind | apps/admin/src/ui/components/SlateEditor/slate.utils.ts:102-116 | each list format wraps its items in a list element |
| SlateUtils.AnyHasFormatIff | apps/admin/src/ui/components/SlateEditor/slate.utils.ts:32-37 | some element of the run has the format exactly when one of them matches it |
| SlateUtils.FirstAlignFirst | apps/admin/src/ui/components/SlateEditor/slate.utils.ts:47-54 | an alignment is found exactly when some element carries one, and it is the first such element's |
| SlateUtils.EditorMarksFirst | apps/admin/src/ui/components/SlateEditor/slate.utils.ts:21-24 | in a well-formed document the marks read are those of the first text leaf of the first selected block |
| SlateUtils.ToggledKind | apps/admin/src/ui/components/SlateEditor/slate.utils.ts:68-100 | the new type is always a text type, and it is a paragraph exactly when the format was active |
| SlateUtils.BlockToggledShape | apps/admin/src/ui/components/SlateEditor/slate.utils.ts:56-117 | the selected blocks are retyped, or wrapped in a new list when a list format is turned on, between the pieces around them |
| SlateUtils.BlockToggledFlips | apps/admin/src/ui/components/SlateEditor/slate.utils.ts:56-117 | toggleBlock keeps the document well formed and turns an active format off and an inactive one on |
| SlateUtils.ListTurnedOn | apps/admin/src/ui/components/SlateEditor/slate.utils.ts:102-116 | a new list of the format's type around the selected blocks makes the format active |
| SlateUtils.BlockToggledTwice | apps/admin/src/ui/components/SlateEditor/slate.utils.ts:56-117 | on top-level paragraphs toggling a format twice gives the document back, list formats included |
| SlateUtils.ListSwitched | apps/admin/src/ui/components/SlateEditor/slate.utils.ts:56-117 | toggling one list format on a whole list of the other format gives a list of the new format with the same items |
| SlateUtils.HeadingInsideList | apps/admin/src/ui/components/SlateEditor/slate.utils.ts:119-129 | toggling a heading as written on a one-item list leaves a heading inside the list, which is not well formed |
| SlateUtils.HeadingToggledAgrees | apps/admin/src/ui/components/SlateEditor/slate.utils.ts:119-129 | where the selection touches no list, the written and the corrected heading toggles agree |
| SlateUtils.HeadingToggledFlips | apps/admin/src/ui/components/SlateEditor/slate.utils.ts:119-140 | the corrected heading toggle keeps the document well formed and flips whether that level is active |
| SlateUtils.MarkToggledFlips | apps/admin/src/ui/components/SlateEditor/slate.utils.ts:21-30 | toggleMark keeps the document's structure and flips whether the mark is active |
| SlateUtils.MarkToggledTwice | apps/admin/src/ui/components/SlateEditor/slate.utils.ts:26-30 | toggling a mark twice gives the document back when every selected leaf is in the same state for it |
| SlateUtils.ActiveSelectionState | apps/admin/src/ui/components/SlateEditor/slate.utils.ts:21-24 | when all selected leaves agree on the mark, isMarkActive reports that state |
| SlateUtils.AlignedBlocks | apps/admin/src/ui/components/SlateEditor/slate.utils.ts:39-45 | setAlign keeps the structure; the selected blocks carry the alignment and the others are unchanged |
| SlateUtils.AlignedActive | apps/admin/src/ui/components/SlateEditor/slate.utils.ts:39-54 | after setAlign, getActiveAlign reports the alignment set when no list carries its own |
| SlateUtils.UnwrapThenSet | apps/admin/src/ui/components/SlateEditor/slate.utils.ts:60-100 | unwrapping and then setting a block property updates the selected run in place between the cut pieces |
| SlateUtils.ToggleBlockSteps | apps/admin/src/ui/components/SlateEditor/slate.utils.ts:56-117 | the unwrap, setNodes and wrap steps of toggleBlock put together the document the toggle describes |
| SlateUtils.Editor.constructor | apps/admin/src/ui/components/SlateEditor/SlateEditor.tsx:21-24 | the editor starts on a well-formed document with no selection |
| SlateUtils.Editor.Select | apps/admin/src/ui/components/SlateEditor/SlateEditor.tsx:112-117 | selecting keeps the document and sets the selection |
| SlateUtils.Editor.ToggleMark | apps/admin/src/ui/components/SlateEditor/slate.utils.ts:26-30 | the new document is the mark toggled over the selection, and a non-empty selection flips the mark's activity |
| SlateUtils.Editor.SetAlign | apps/admin/src/ui/components/SlateEditor/slate.utils.ts:39-45 | the new document is the selection aligned, and getActiveAlign then reports the alignment when no list carries one |
| SlateUtils.Editor.ToggleBlock | apps/admin/src/ui/components/SlateEditor/slate.utils.ts:56-117 | the new document is the block toggle's, it stays well formed and a non-empty selection flips the format's activity |
| SlateUtils.Editor.ToggleHeadingAsWritten | apps/admin/src/ui/components/SlateEditor/slate.utils.ts:119-129 | the new document is setNodes without unwrapping; when the selection touches no list it is the corrected toggle's and stays well formed |
| SlateUtils.Editor.ToggleHeading | apps/admin/src/ui/components/SlateEditor/slate.utils.ts:119-140 | the new document is the corrected heading toggle's, it stays well formed and a non-empty selection flips the level's activity |
| SlateEditorView.AlignOfName | apps/admin/src/ui/components/SlateEditor/slate.d.ts:4 | a name read as an alignment is the name of that alignment |
| SlateEditorView.AlignRoundTrip | apps/admin/src/ui/components/SlateEditor/slate.d.ts:4 | every alignment's name reads back as that alignment |
| SlateEditorView.KindRoundTrip | apps/admin/src/ui/components/SlateEditor/slate.d.ts:53-60 | every element type's name, with its level for a heading, reads back as that type |
| SlateEditorView.TextGets | apps/admin/src/ui/components/SlateEditor/slate.d.ts:6-13 | a text leaf's object holds its text and exactly the marks it carries |
| SlateEditorView.ElementGets | apps/admin/src/ui/components/SlateEditor/slate.d.ts:15-60 | an element's object holds its type, its level when a heading, its alignment when set, and its children |
| SlateEditorView.MarksRead | apps/admin/src/ui/components/SlateEditor/slate.d.ts:6-13 | the mark properties written for a leaf read back as the same marks |
| SlateEditorView.TextRoundTrip | apps/admin/src/ui/components/SlateEditor/SlateEditor.tsx:97-101 | a text leaf written as JSON and parsed back is the same leaf |
| SlateEditorView.NodeRoundTrip | apps/admin/src/ui/components/SlateEditor/SlateEditor.tsx:97-101 | every node whose unknown type does not spell a known one reads back from its JSON as itself |
| SlateEditorView.DocRoundTrip | apps/admin/src/ui/components/SlateEditor/SlateEditor.tsx:97-101 | a document written out by the code view and parsed back unchanged is the same document |
| SlateEditorView.SafeValue | apps/admin/src/ui/components/SlateEditor/SlateEditor.tsx:24 | the value shown is the given value or the empty document, and it always has a truthy length |
| SlateEditorView.SafeValueOfDoc | apps/admin/src/ui/components/SlateEditor/SlateEditor.tsx:24 | an empty document falls back to one empty paragraph, a non-empty one is kept, and a missing value reads as the empty document |
| SlateEditorView.SafeValueIdempotent | apps/admin/src/ui/components/SlateEditor/SlateEditor.tsx:24 | applying the fallback to a value already shown changes nothing |
| SlateEditorView.EditorView.constructor | apps/admin/src/ui/components/SlateEditor/SlateEditor.tsx:20-22 | the editor holds the given value with the code view closed |
| SlateEditorView.EditorView.ToggleCodeView | apps/admin/src/ui/components/SlateEditor/SlateEditor.tsx:82 | the code view flips and the value stays |
| SlateEditorView.EditorView.EditCode | apps/admin/src/ui/components/SlateEditor/SlateEditor.tsx:98-105 | valid JSON becomes the new value as it is; invalid JSON changes nothing |
| SlateEditorView.HeadingTag | apps/admin/src/ui/components/SlateEditor/SlateEditor.tsx:34-41 | levels 2 to 6 render as their own heading tag and any other level as h6 |
| SlateEditorView.ParagraphAlignHidden | apps/admin/src/ui/components/SlateEditor/SlateEditor.tsx:64-65 | a paragraph the align buttons centred renders without its alignment as written |
| SlateEditorView.RenderElement | apps/admin/src/ui/components/SlateEditor/SlateEditor.tsx:26-66 | every element but the list wrappers renders with its alignment, under the same tag as written |
| SlateEditorView.AlignShown | apps/admin/src/ui/components/SlateEditor/SlateEditor.tsx:26-66 | after setAlign every selected block renders with the alignment set |
| SlateEditorView.MarkOrderRising | apps/admin/src/ui/components/SlateEditor/SlateEditor.tsx:72-77 | the marks are wrapped in the order bold, italic, underline, strikethrough, code, which lists every mark |
| SlateEditorView.WrapAllTags | apps/admin/src/ui/components/SlateEditor/SlateEditor.tsx:72-77 | wrapping in that order keeps the text, nests the tags and adds a tag for exactly the marks that are on |
| SlateEditorView.RenderLeafMarks | apps/admin/src/ui/components/SlateEditor/SlateEditor.tsx:69-80 | a rendered leaf keeps its text, has a tag for exactly the marks set to true, and nests them with code outermost |
| Strings.LowerChar | apps/admin/src/lib/utils/slugify.ts:12 | an ASCII capital becomes its small letter; every other character is kept |
| Strings.UpperChar | apps/admin/src/lib/auth/auth-server.ts:111 | an ASCII small letter becomes its capital; every other character is kept |
| Strings.Lower | apps/admin/src/lib/utils/slugify.ts:12 | character by character lower-casing, keeping the length |
| Strings.Upper | apps/admin/src/lib/auth/auth-server.ts:111 | character by character upper-casing, keeping the length |
| Strings.LowerIdempotent | apps/admin/src/lib/utils/slugify.ts:12 | lower-casing twice is lower-casing once |
| Strings.UpperOfLower | apps/admin/src/lib/auth/auth-server.ts:111 | upper-casing does not depend on the case the input was written in |
| Strings.TrimStart | apps/admin/src/lib/utils/slugify.ts:13 | the result is a suffix of the input with no leading white space |
| Strings.TrimEnd | apps/admin/src/lib/utils/slugify.ts:13 | the result is a prefix of the input with no trailing white space |
| Strings.Trim | apps/admin/src/lib/utils/slugify.ts:13 | the result has no white space at either end and is no longer than the input |
| Strings.TrimSlice | apps/admin/src/lib/utils/slugify.ts:13 | the trimmed text is a slice of the input with only white space around it |
| Strings.TrimIdempotent | apps/admin/src/lib/utils/slugify.ts:13 | trimming twice is trimming once |
| Strings.TrimEmptyIffAllSpace | apps/admin/src/lib/utils/slugify.ts:13 | a string trims to nothing exactly when it is all white space |
| Strings.TrimSurrounded | apps/admin/src/lib/utils/slugify.ts:13 | trim removes exactly the white space around a trimmed middle |
| Strings.Join | apps/admin/src/lib/services/tag.server.ts:35 | joining nothing gives the empty string and joining one part gives that part |
| Strings.Split | apps/admin/src/ui/layout/Breadrcumbs/Breadcrumbs.tsx:35 | splitting gives at least one piece and no piece holds the separator |
| Strings.JoinSplit | apps/admin/src/ui/layout/Breadrcumbs/Breadcrumbs.tsx:35 | splitting and joining with the same separator gives the input back |
| Strings.NonEmpty | apps/admin/src/ui/layout/Breadrcumbs/Breadcrumbs.tsx:35 | the non-empty parts are kept, each one of the input's, and every non-empty part is kept |
| Strings.ReplaceSpaceRunsNoSpace | apps/admin/src/lib/utils/slugify.ts:15 | replacing white-space runs by a separator without white space leaves no white space |
| Strings.ReplaceSpaceRunsNoop | apps/admin/src/lib/utils/slugify.ts:15 | a string without white space is left as it is |
| Strings.ReplaceSpaceRunsBetween | apps/admin/src/lib/utils/slugify.ts:15 | one run of white space between two words becomes one separator |
| Strings.NatToString | apps/admin/src/lib/services/tag.client.ts:120 | a number prints as at least one decimal digit with no leading zero |
| Strings.NatToStringInjective | apps/admin/src/lib/services/tag.client.ts:120 | different numbers print differently |
| Strings.Filter | apps/admin/src/lib/utils/slugify.ts:14 | only accepted characters are kept, and a string of accepted characters is kept whole |
| Strings.FilterAppend | apps/admin/src/lib/utils/slugify.ts:14 | filtering works character by character, keeping the order |

## Left out

- Strings.Lower: maps only ASCII `A`-`Z`. JavaScript's `toLowerCase` also maps other letters (`É` to `é`), so the model leaves those unchanged.
- Strings.Upper: maps only ASCII `a`-`z`, for the same reason as `Lower`.
- AuthServer.HasAnyRole: uses the ASCII-only `Upper`, so a role spelled with non-ASCII letters may compare differently than under `toUpperCase`.
- TagRepo.FindTagByName: uses the ASCII-only `Lower` for Prisma's `mode: "insensitive"`. Database collation rules are not part of this model.
- TagSelect.NameTaken: uses the ASCII-only `Lower`, like `FindTagByName`.
- TagClient.SlugFromNameShape: uses the ASCII-only `Lower`, like `FindTagByName`.
- Breadcrumbs.ToLabel: uppercases the first character with the ASCII-only `Upper`.
- SlugUtils.Slugify: no Unicode NFKD decomposition and no diacritic stripping (apps/admin/src/lib/utils/slugify.ts:10-11). The model treats both as the identity, so an accented letter is dropped where the source keeps its base letter: "Café" gives "caf" here and "cafe" in the source.
- AuthUtils.Decode: handles `%XX` escapes of ASCII bytes only. A multi-byte UTF-8 escape such as `%C3%A9` gives None, so the callback falls back to `/admin` where `decodeURIComponent` would decode it.
- ContentValidation.ParseResetPassword: counts lengths in characters, while the source counts UTF-16 code units. A password made of characters outside the Basic Multilingual Plane is therefore counted shorter here.
- ContentValidation.ParseSignUp: counts lengths in characters rather than UTF-16 code units, as in `ParseResetPassword`. The library's email check is a parameter.
- SlateUtils.Editor.ToggleMark: a collapsed caret has no pending-marks state (`editor.marks` on an empty selection). A selection is a range of whole blocks, so the mark goes on every text leaf of each selected block, never on part of a leaf or part of a block.
- SlateUtils.Editor.SetAlign: a selection covers whole blocks (a contiguous range of the document's blocks). `setNodes` with `split: true` on a partly selected block is not modelled.
- SlateUtils.Editor.ToggleBlock: retyping a block replaces its element, so a stale `level` is dropped, whereas Slate's `setNodes` keeps any property it is not given.
- Json.Lookup: returns the first entry for a duplicated key, while `JSON.parse` keeps the last.
- Json: numbers are integers. Floating point and the number-to-text rules of `JSON.stringify` are not part of this model.
- ContentService.ContentStore.List: returns rows in table order. The source orders by `updatedAt` descending, and timestamps are not part of this model.
- ContentService.SafePage: takes an integer, so the `NaN` that `parseInt` gives the route handlers for non-numeric query text is not modelled.
- ContentService.SafeLimit: takes an integer, as `SafePage` does.
- ContentService.ContentStore.DeleteService: removes the row only. Whether the database cascades the page's tag links depends on the Prisma schema, which is not part of this model.
- TagRepo.TagStore.DeleteTagRecord: removes the tag's page links together with the row, as an `onDelete: Cascade` relation would. The Prisma schema is not part of this model.
- AvatarUtils.NormalizeAvatarUrl: the size is a natural number, as are the sizes of `XSizeName`, `SizeQuery` and `NormalizeFor`. The source takes any `number`, so a fractional or negative size (which the template would print as `40.5` or `-1`) is outside this model.
- TagRepo.TagStore.SetTagsForPage: the page table lives in `ContentService.ContentStore`, so the set of page ids is a parameter of this method and of `TagService.SetTagsForPageService`. The store's invariant checks only the tag side of each link.
- TagService.CreateValidated: the repository lookups cannot fail. The source wraps them in `tryCatch` and continues as if nothing was found when the database errors.
- TagSelect.TagMultiSelect.KeyDown: a rejected `createTagAction` is not modelled. The parent's controlled `value` is modelled as state the component owns, with `onChange` applied at once.
- TagSelect.TagMultiSelect.CreateClick: the same as `KeyDown`.
- Persistence and network: Prisma calls are modelled as the sequences, sets and maps of the store classes. Fetch calls are modelled as the values they answer with. Route handlers, response helpers, the fetch wrappers and the seed script are not modelled.
- Not modelled because they only run queries:
  - `searchTagsRaw` (apps/admin/src/lib/repos/tagRepo.ts:36-50): the first 20 tags by name whose name or slug contains the key.
  - `listTagsWithUsageService` (apps/admin/src/lib/services/tag.server.ts:144-149).
  - `getTagsForPageService` (apps/admin/src/lib/services/tag.server.ts:117-122).
- Not modelled because they only post and forward the response: `updateEntityTagsAction` and `deleteTagAdminAction` (apps/admin/src/lib/services/tag.client.ts:160-169, 227-238), and the fetch parts of `createPageApi`, `updatePageApi`, `createPostApi` and `updatePostApi`.
- Auth library configuration (apps/admin/src/lib/auth/auth-server.ts:16-78), the auth client and the network flows of the sign-in, sign-up and reset forms are left out. The session and the stored role are parameters of `WithAuth`.
- Slate internals are left out: `Editor.nodes`, `Transforms` splitting, history and React rendering. The editor's tree operations are rewrites over the block range of the selection.
- `normalizeSlateValue` is not part of this model. `SafeValue` covers only the fallback to one empty paragraph when the value has no length.
- Timers, debounce and async races are left out. Toast timeouts are events the host receives. The search debounce and the optimistic tag update with rollback are not modelled.
- `crypto.randomUUID` is left out. The fallback tag id takes the fresh text as a parameter.
- Listener functions are identified by numeric ids in `Toast.ToastBus`. The "no window" case is a boolean parameter.
- Browser state (local storage, theme, cookies) and pure presentation components are left out.
- The `ui/shell` copies of PageForm and PostForm repeat the slug logic of the `ui/layout` versions, so only the layout versions are modelled.
- Small one-rule files are left out: `lib/utils/errors.ts`, `validation/errors.ts` and the sign-in form schema. Config files are left out as well.

## Findings

| source | as written | input that shows it | evidently intended | confidence | as-written member | corrected member |
|---|---|---|---|---|---|---|
| apps/admin/src/ui/components/SlateEditor/slate.utils.ts:119-129 | `toggleHeading` sets the block to a heading without unwrapping lists | a bulleted list with one item, toggled to heading level 2, leaves a heading inside the list | lift list items out first, as `toggleBlock` does | not executed | SlateUtils.HeadingInsideList | SlateUtils.HeadingToggledFlips |
| apps/admin/src/ui/components/SlateEditor/SlateEditor.tsx:64-65 | the default `<p>` case (and the list-item and code-block cases) renders without `textAlign` | an empty paragraph aligned centre renders left-aligned | every block renders its alignment, as headings and quotes do | not executed | SlateEditorView.ParagraphAlignHidden | SlateEditorView.AlignShown |
| apps/admin/src/lib/services/tag.server.ts:73-77 | `safeParse` is called on the tag schema, which is a yup schema (apps/admin/src/lib/validation/tag.ts:3-5) and has no such method | `createTagService("News")` throws a TypeError before any validation | validate the name as trimmed and non-empty | not executed; assumes `@/lib/validation` re-exports that schema | TagService.SafeParseRejectsAll | TagService.ValidateName |
| apps/admin/src/lib/services/tag.server.ts:86-94 | the free-slug loop asks `findTagBySlug`, which sees only TAG rows, although slugs are unique across all taxonomies | with a category whose slug is "news", creating tag "News" picks "news" and the insert fails | look for the slug in every taxonomy | not executed | TagService.SlugLoopMissesCategory | TagService.CreateValidated |
| apps/admin/src/lib/repos/tagRepo.ts:100-111 | `deleteTagRecord` deletes the row with that id whatever its type, then reports null for a non-tag | deleting id "c1" of a category removes the category and the service answers "Tag not found" | delete only a TAG row | not executed | TagRepo.DeleteAsWrittenDropsCategory | TagRepo.DeleteTagSound |
| apps/admin/src/components/auth/utils/safeCallbackUrl.ts:1-19 | the prefix "/" makes "//" an accepted start | `//evil.example` is returned as the callback, a protocol-relative URL to another host | accept only same-origin paths | not executed | AuthUtils.ProtocolRelativeAccepted | AuthUtils.SafeCallbackUrl |
| apps/admin/src/lib/services/page.server.ts:57-63 | existence is checked by id or slug, but the delete uses the raw reference as an id | deleting a page by its slug passes the check, then the delete finds no row with that id | delete the row that was found | not executed | ContentService.DeleteBySlugAsWritten | ContentService.ContentStore.DeleteService |
| apps/admin/src/lib/auth/auth-server.ts:134-163 | the role check compares the uppercased role, but the handler receives the stored spelling | a stored role "admin" with allowed roles [ADMIN] passes, and the handler gets "admin" | pass the role as checked, uppercased | not executed | AuthServer.WithAuthPassesUnnormalisedRole | AuthServer.WithAuth |
