# Staff identity badges — a Dafny model of the staff app's rules

The staff app keeps a table of staff records, each with an opaque uuid used in
public links and a human staff id. Every record gets a verification code: a
QR image of the URL of its public verify page. Operators list, search, create
and edit records. Anyone holding a badge can open its verify page. Both the
operator's detail page and the public verify page write one row to a
verification log.

This project models the deterministic rules inside that application:

- `text.dfy` (module `Text`): the string operations the views rely on.
  These are ASCII case folding, substring search, Python's
  `s.split(sep)[0]` and Python's prefix slice `s[:n]`.
- `utils.dfy` (module `Utils`): `staff/utils.py`. It covers the client
  address of a request, the verification URL (scheme, domain, path) and the
  media path of the code image.
- `models.dfy` (module `Models`): `staff/models.py`.
  - The status and department enumerations.
  - The expiry rule and the badge colour, and the full name and display text.
  - The verification-log record.
  - A `Database` class holding the two tables plus the directory of written
    code images.
  - The `Staff` class whose `Save` persists the record, then attaches a code
    image only if none is set yet. Its `uuid` is a `const`.
- `views.dfy` (module `Views`): `staff/views.py`.
  - The list's filter chain, proved equal to one order-preserving selection.
  - Paging in slices of 20.
  - The verify and detail views, each of which appends exactly one log entry.
  - The create and edit views, and the sticker download's file name.
- `wrappers.dfy` (module `Wrappers`): `Option` and `Result`.

Modelling conventions:

- Dates are day numbers. "Today" (`timezone.now().date()`) and the log
  timestamp are parameters.
- A uuid is its canonical string.
- An unset optional text column (`email`, `phone`, `photo`, `qr_code`) is `""`.
  For `qr_code` this matches the source's `if not self.qr_code`, which treats
  `None` and `""` alike.
- The staff table is a sequence in its default order, newest first. A new
  record is inserted at the front.
- The log table is a sequence in creation order. The detail page's "recent
  verifications" are the last ten entries for that record, newest first.
  The source orders them by `verified_at`, which is `auto_now_add`: each
  entry is stamped when it is created, so the newest by timestamp is the last
  appended. The model orders by append position and does not relate
  `verifiedAt` to it.
- The staff form's `status` is a required choice (the model field has no
  `blank=True`), so a valid form always carries one. The column default
  `active` (`Models.DefaultStatus`) applies only to records created outside
  the form.
- The foreign QR encoder and the file write become a boolean `encodeOk`.
  The PDF renderer becomes a boolean `renderOk`.
- The verify route's path is `"/" + mountPrefix + "verify/" + uuid + "/"`.
  `mountPrefix` stands for wherever the project's root URL configuration
  mounts the staff app (`staff/urls.py:13`).
- A request's `META` is a `map<string, string>`.
- `get_client_ip` can return `None` when neither header is present, and `""`
  when the header's first field or `REMOTE_ADDR` is empty. Django stores an
  empty address as NULL, and the log's `ip_address` column is required, so in
  both cases the log insert fails. The model answers `ServerError` and appends
  nothing (`Views.HasAddress`).
- A duplicate staff id on save is the database's uniqueness error. In the
  views it is the form's `validate_unique` error, so the form is redisplayed
  and nothing is written.
- The staff table keeps uuids and staff ids unique (`UniqueKeys`), and every
  log entry refers to a stored record. `Database.Valid` states both, and
  every method preserves them.
- `today` is whatever date the caller passes. The source uses
  `timezone.now().date()` with `USE_TZ = True`, which is the UTC date, while
  `TIME_ZONE` is `Africa/Lagos` (`staff_id/settings.py:113-115`). The model
  does not decide which calendar day that is.
- The detail view logs a lookup exactly as the public verify view does. The
  model keeps this behaviour.

## Model

| member | source | states |
|---|---|---|
| `Text.ContainsIffOccurs` | staff/views.py:32-35 | the left-to-right scan used for `icontains` finds the needle exactly when it occurs at some position of the haystack |
| `Text.FirstField` | staff/utils.py:44 | The result is the prefix of the header that ends right before its first comma, or the whole header when it holds no comma, with nothing trimmed. |
| `Text.Truncate` | staff/views.py:102 | `[:500]`: a prefix of the input of length at most 500; the whole input when it is short enough; exactly 500 characters otherwise |
| `Utils.Protocol` | staff/utils.py:18 | the scheme is `http` exactly when DEBUG is on, otherwise `https` |
| `Utils.SiteDomain` | staff/utils.py:17 | SITE_DOMAIN when it is defined, otherwise the first allowed host |
| `Utils.VerificationPath` | staff/models.py:62-63 | the verify route: `/`, the mount prefix, then `verify/`, the uuid and `/`, as `staff/urls.py:13` declares it |
| `Utils.VerificationUrl` | staff/utils.py:16-19 | the URL starts with `http://` exactly in debug mode and with `https://` exactly otherwise; the domain follows the scheme; the verify path of the uuid ends it; its length is exactly scheme, `://`, domain and path, so nothing lies between them |
| `Utils.VerificationUrlInjective` | staff/utils.py:19 | under one configuration, two uuids with the same verification URL are equal |
| `Utils.QrRelativePath` | staff/utils.py:30-32 | the path is `qr_codes/qr_`, then the uuid, then `.png` |
| `Utils.QrRelativePathInjective` | staff/utils.py:30-32 | distinct uuids give distinct image paths |
| `Utils.ClientIp` | staff/utils.py:40-47 | a present, non-empty X-Forwarded-For yields its text up to the first comma (comma-free, a prefix, the whole header without a comma); otherwise REMOTE_ADDR, or None when that is missing too |
| `Models.ParseStatus` | staff/models.py:9-13 | the three status codes map one-to-one to the three statuses; every other code is rejected |
| `Models.ParseDepartment` | staff/models.py:15-23 | the seven department codes map one-to-one to the seven departments; every other code is rejected |
| `Models.IsExpired` | staff/models.py:65-68 | never expired without an expiry date; with one, expired exactly when today is after it |
| `Models.ExpiryBoundary` | staff/models.py:66-67 | on the expiry day a record is not expired; on the next day it is |
| `Models.ExpiryIsMonotone` | staff/models.py:65-67 | an expired record stays expired on every later day |
| `Models.StatusDisplayClass` | staff/models.py:70-73 | `success` exactly for an active record that has not expired, `danger` otherwise |
| `Models.FullName` | staff/models.py:59-60 | the first name, one space, then the last name, each in place |
| `Models.Display` | staff/models.py:56-57 | the staff id, then ` - `, then the full name, each in place |
| `Models.Find` | staff/views.py:95 | the lookup finds a record exactly when its uuid is stored, and the record found has that uuid |
| `Models.Upsert` | staff/models.py:77 | a write of a stored uuid keeps every row in its position and replaces only that uuid's row; a new uuid is inserted as the newest row; afterwards that uuid finds the record and every other lookup is unchanged |
| `Models.ReplaceInPlace` | staff/models.py:77 | replacing the row that holds a uuid keeps every uuid in its position, finds the new record under that uuid and leaves every other lookup unchanged |
| `Models.UpsertKeepsKeysUnique` | staff/models.py:26-29 | a write whose staff id belongs to no other row keeps uuids and staff ids unique |
| `Models.KeysStayUnique` | staff/models.py:84 | rewriting a stored row under its own uuid and staff id never clashes and keeps the keys unique |
| `Models.UpsertOverwrites` | staff/models.py:77-84 | writing a uuid a second time replaces the first write's row, so persisting then re-persisting with the image path leaves one row |
| `Models.UpsertIdempotent` | staff/models.py:77 | writing the same record twice leaves the table as writing it once |
| `Models.Database.Write` | staff/models.py:77 | a save is refused, with nothing changed, exactly when another row has the staff id; otherwise the row is written; the uniqueness invariant holds |
| `Models.Database.WriteQrCode` | staff/models.py:84 | `update_fields=['qr_code']` changes only the image column of the stored row |
| `Models.Database.CreateLog` | staff/views.py:98-103 | one log entry is appended and nothing else changes |
| `Models.WithForm` | staff/views.py:81-83 | an edit form overwrites every form field, status included, and keeps the uuid and the image path |
| `Models.NewRecord` | staff/views.py:64-66 | a created record has the given uuid, no image yet, and every form field, the chosen status included |
| `Models.Staff.Load` | staff/views.py:78 | an instance loaded from a row carries exactly that row |
| `Models.Staff.Create` | staff/views.py:64-66 | a new instance carries the form's fields, the chosen status included, and no image |
| `Models.Staff.Assign` | staff/views.py:81 | binding a form to an instance changes its fields as `WithForm` says; the uuid is a constant |
| `Models.Staff.Save` | staff/models.py:75-84 | persist first (a staff id clash changes nothing). Then, only if no image is set, generate it, record `qr_codes/qr_<uuid>.png` and persist again. A record that has an image keeps it, and no image is written. A failed generation leaves the record persisted without an image. The uuid and the log never change |
| `Models.Staff.AttachQrCode` | staff/models.py:80-84 | for a stored record without an image: the image of its verification URL is written under `qr_codes/qr_<uuid>.png`, that path is recorded on the instance and on its stored row, and nothing else changes |
| `Views.TextMatchesIffOccurs` | staff/views.py:30-36 | the text filter keeps a record exactly when the lower-cased query occurs in the lower-cased staff id, first name, last name or email |
| `Views.TextMatches` | staff/views.py:31-36 | an empty query matches every record, and a matching query is no longer than at least one of the four searched fields |
| `Views.StaffList` | staff/views.py:28-42 | the filter chain never adds records: every record listed is stored and meets every non-empty filter |
| `Views.StaffListIsSelection` | staff/views.py:28-42 | the three-step filter chain equals one selection by the conjunction of the non-empty filters, in table order |
| `Views.StaffListExact` | staff/views.py:28-42 | the list holds a record exactly when the table does and it meets every non-empty filter. It holds it as many times as the table does, and it is a subsequence of the newest-first table |
| `Views.StaffListUnfiltered` | staff/views.py:24-28 | with every parameter empty, the list is the whole table in its order |
| `Views.ExampleByDepartment` | staff/views.py:38-39 | of an active medical `S1` and a suspended lab `S2`, `department=medical` keeps the first only |
| `Views.ExampleByText` | staff/views.py:30-36 | of the same pair, `q=S2` and `q=s2` each keep the second only, matched regardless of case |
| `Views.ExampleByDepartmentAndStatus` | staff/views.py:38-42 | of the same pair, `department=medical&status=suspended` keeps nothing |
| `Views.Page` | staff/views.py:44-46 | a page holds at most 20 records: the items after `k` full pages, in order, as many as remain up to 20 |
| `Views.ItemOnItsPage` | staff/views.py:44 | item `i` of the list is item `i % 20` of page `i / 20` |
| `Views.PageCount` | staff/views.py:44 | exactly one page for an empty list; for a non-empty list, just enough pages of 20 to hold every item |
| `Views.EntriesFor` | staff/views.py:96 | `verification_logs`: every log entry that names the record, as many times as the log holds it, and no other, in log order |
| `Views.EntriesForAppend` | staff/views.py:98-103 | logging a lookup adds that entry last among the record's entries and changes none of the earlier ones |
| `Views.UserAgent` | staff/views.py:102 | the User-Agent header when the request carries one, otherwise the empty string |
| `Views.StaffListPage` | staff/views.py:44-46 | page `k` holds the items of the filtered list after `k` full pages, in order, as many as remain up to 20, each stored and meeting every filter |
| `Views.NewLogEntry` | staff/views.py:121-126 | the entry names the record and the client address. `verified_by` is the user exactly when one is authenticated. The user agent is the header cut to its first 500 characters: the whole header when short enough, exactly 500 characters otherwise |
| `Views.IsValid` | staff/views.py:130 | valid exactly when active and either without expiry date or not past it |
| `Views.ValidIffSuccessClass` | staff/views.py:130 | the verify page's verdict agrees with the badge colour |
| `Views.VerifyStaff` | staff/views.py:116-134 | an unknown uuid is not found and logs nothing. A missing or empty client address fails and logs nothing. Otherwise exactly one entry for that record is appended, and the page carries the record, its verdict and that entry |
| `Views.RecentLogs` | staff/views.py:96 | the record's own entries in reverse log order, newest first, as many as there are up to ten |
| `Views.NewEntryIsMostRecent` | staff/views.py:96-107 | right after a lookup is logged, its entry heads the record's recent entries |
| `Views.StaffDetail` | staff/views.py:93-112 | the same lookup-then-log rule as the verify view. The page shows the record's recent entries, read after the new one was appended, so the new entry comes first |
| `Views.SaveResult` | staff/views.py:65-68 | a successful save is the saved record, a staff id clash is a form error, and a failed image is a server error |
| `Views.AfterSave` | staff/models.py:80-84 | a saved record keeps its uuid. It gains `qr_codes/qr_<uuid>.png` only when it had no image and generation succeeded, and is otherwise unchanged |
| `Views.SecondSaveKeepsImage` | staff/models.py:80 | a record saved once has a non-empty image path, and saving it again changes nothing |
| `Views.StaffCreate` | staff/views.py:61-72 | a new record is inserted as the newest row with the form's status and its image attached; a clash writes nothing; a failed image leaves the record stored without one; the log is untouched |
| `Views.StaffEdit` | staff/views.py:76-89 | an unknown uuid is not found. Otherwise the form is written over the stored row in place, under the same uuid, keeping the existing image and taking the form's status. A clash writes nothing, and the log is untouched |
| `Views.StickerFilenameInjective` | staff/views.py:159 | distinct staff ids give distinct sticker file names |
| `Views.StickerFilename` | staff/views.py:159 | the file name is `qr_sticker_`, then the staff id, then `.pdf` |
| `Views.StickerDisposition` | staff/views.py:149-166 | unknown uuid: not found; renderer failure: server error; otherwise `inline; filename="qr_sticker_<staff_id>.pdf"` |

## Left out

- QR encoding and image writing (`staff/utils.py:9-14`, `21-38`). These are the
  `qrcode` library, `os.makedirs` and `img.save`. Generation is a recorded
  `path -> URL` entry in `Database.images`, and `encodeOk` stands for its success.
- The `save_to_file=False` branch of `generate_qr_code`, which returns an
  in-memory PNG buffer. Nothing in the modelled core calls it.
- PDF rendering (`render_to_string`, `pisa.CreatePDF`, `staff/views.py:153-161`).
  The renderer's success is the parameter `renderOk`. Only the file name and
  the error status are modelled.
- Framework behaviour:
  - `login_required`, `require_http_methods`, `never_cache`, messages and
    templates.
  - Form validation other than the staff id clash. An invalid form simply
    writes nothing.
  - The GET branches of create and edit, which only render a form.
  - The `home` view, which only renders a template, and the `print_card`
    view, which only looks a record up and renders a template.
- Django's `Paginator.get_page` clamping of out-of-range or non-numeric page
  numbers. `Page` takes a page index counted from 0, and an index past the end
  gives an empty page.
- The clock. `created_at`, `updated_at` and `verified_at` are not columns of
  the model, except that the caller supplies each log entry's timestamp.
- Unicode case folding in `icontains`. `Text.Lower` folds only ASCII letters.
- The 128-bit structure of the uuid. A uuid is an opaque string, and its
  uniqueness is a table invariant.
- `VerificationLog.__str__` (`staff/models.py:98-99`), which formats a
  datetime.
- IP address format validation by `GenericIPAddressField` and PostgreSQL's
  `inet` column. The model has no IPv4 or IPv6 grammar.
- StaffCreate: maps every staff id clash to the form error. A clash that
  arises after the form's `validate_unique` has passed (two concurrent
  creates, say) reaches the source as the database's IntegrityError from
  `form.save()`, which answers 500. The model runs one request at a time.
- VerifyStaff: logs a request whose non-empty client address is not an IP
  address (an X-Forwarded-For of `unknown`, say). The source's log insert
  fails there, so it answers 500 and writes no log row.
- StaffDetail: the same as VerifyStaff for a non-empty address that is not an
  IP address.
- Field length limits (`max_length`), which are checked by forms and the
  database.
- staff/forms.py is not part of this model. Its copies of the QR and client-IP
  helpers are unused.
- staff/admin.py, staff/context_processors.py and staff_id/settings.py are not
  part of this model. The only exception is the assumption in `Utils.HasHost`
  that some host can be named: settings always build `ALLOWED_HOSTS` by
  splitting a string, which yields at least one entry.
