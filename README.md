# Certificate templates and student responses — a Dafny model

This project models the back end of a university certificate service (NestJS
with TypeORM). Staff upload document templates. Each template has named fields
and may be limited to some specializations. Students fill a template in, which
stores a response in status SENT. Staff then move responses between SENT,
APPROVED and DECLINED. A small user module handles login, registration, role
changes and password resets.

The model covers four parts:

- **Template service** (`template_service.dfy`). The `TemplatesService` class
  holds the four repositories as maps from generated ids to records, with one
  id generator per table. Its methods change those maps one save or delete at a
  time, as the service code does. For example, a new field list is saved one
  field at a time in a loop. The read-only queries are functions of the maps.
  `Valid()` states that ids lie below their generators and that every foreign
  key refers to an existing row. Every state-changing operation requires it
  and preserves it. The queries that read only the templates and fields
  tables do not need it. The internal save and delete steps (`SaveField`,
  `DeleteFieldsOf`, `SaveFieldsInOrder`, `ReplaceFields`) do not mention it.
  The class keeps its own copy of the users table, keyed by id. It only reads
  that copy, which never changes after construction.
- **Template controller** (`template_controller.dfy`). This covers the work
  done before the service is called:
  - comma-separated `fields` and `specializations` strings are split and
    trimmed;
  - a single query value is wrapped into a list;
  - query values are checked against the enumerations, and the first bad one
    is a BadRequest;
  - `page` and `limit` default to 1 and 10.

  The raw request value is `Input = Missing | Single(s) | Many(items)`.
- **User service** (`user_service.dfy`). The `UserService` class holds the
  users table, keyed by the unique e-mail column. In the application this is
  the same table the template service reads. The model keeps the two copies
  separate and does not relate them. It covers role changes,
  password resets, and the status codes that login and registration answer
  with.
- **User controller** (`user_controller.dfy`). This maps service results and
  errors to HTTP answers and exception kinds.

Shared pieces:
- `wrappers.dfy` holds Option, Result and Outcome, and the failure kinds.
  `Plain` is a bare JavaScript `Error`, which the framework answers with 500.
- `enums.dfy` holds the enumerations and the membership test the controllers
  use.
- `entities.dfy` holds the records.
- `text.dfy` holds the JavaScript string operations the code relies on:
  - `split(',')`, which keeps empty pieces;
  - `trim()`, over the ECMAScript white-space and line-terminator set;
  - `includes`.

Collaborators that the model cannot see are parameters:
- the current time (`now`);
- the document renderer (`renderError`, and the fresh `outputPath` it writes);
- bcrypt. A password hash is a value produced outside, and comparison is a
  function `matches(plain, hash)`.
- the JWT signer. The token is modelled as the claims record it signs.
- class-validator. Its verdict is a `validates` flag.

The model follows the code as written. In particular:
- `getTemplateById` returns nothing rather than NotFound.
- `findFieldsByTemplateId` returns no fields for an unknown template rather
  than NotFound.
- `fillTemplate` raises plain errors, which become 500, rather than NotFound.
  It stores no `reason`.
- Split pieces are trimmed but empty ones are kept.
- A repeated role is a plain error that the controller turns into a Conflict.
- `findAllResponsesWithUserDetails` filters by status only, with no
  pagination.
- The upload and update routes do not check template specializations
  against the enumeration. The service passes them to the repository as
  strings.

## Model

| member | source | states |
|---|---|---|
| Enums.ParseSpecialization | src/template/template.controller.ts:150 | a recognised string is the value of the member it parses to |
| Enums.SpecializationRoundTrip | src/template/template.controller.ts:85-92 | every specialization's value parses back to it, and a string parses exactly when some member has it as its value |
| Enums.ParseFaculty | src/template/template.controller.ts:385 | a recognised string is the value of the member it parses to |
| Enums.FacultyRoundTrip | src/template/template.controller.ts:384-388 | every faculty's value parses back to it, and a string parses exactly when some member has it as its value |
| Text.Split | src/template/template.controller.ts:105-106 | splitting always yields at least one piece |
| Text.SplitCount | src/template/template.controller.ts:105-106 | the number of pieces is the number of separators plus one |
| Text.SplitPiecesLackSeparator | src/template/template.controller.ts:105-106 | no piece contains the separator |
| Text.JoinSplit | src/template/template.controller.ts:105-106 | joining the pieces with the separator gives back the original string |
| Text.SplitJoin | src/template/template.controller.ts:105-106 | splitting a join of separator-free pieces gives back the pieces |
| Text.SkipWhitespace | src/template/template.controller.ts:107 | the first position from a start that is not white space; everything skipped is white space |
| Text.SkipWhitespaceBack | src/template/template.controller.ts:107 | the end of a range once trailing white space is dropped; everything dropped is white space |
| Text.Trim | src/template/template.controller.ts:107 | the result is a slice of the input with no white space at either end and only white space outside it |
| Text.TrimFixedPoint | src/template/template.controller.ts:107 | trimming leaves an already trimmed string alone, so trimming twice is trimming once |
| Text.Contains | src/user/user.controller.ts:56 | `includes`: an occurrence at the start is found, and a pattern longer than the string is never found |
| Text.ContainsAt | src/user/user.controller.ts:56 | `includes` holds exactly when the pattern occurs at some position |
| Text.ContainsWitness | src/user/user.controller.ts:56 | an occurrence at some position makes `includes` true |
| Text.ContainsInMiddle | src/user/user.controller.ts:56 | a string built around a phrase includes that phrase |
| TemplateService.NewFields | src/template/template.service.ts:53-60 | the rows of a field save: one per name, with consecutive ids in input order, each naming its field and pointing to the template |
| TemplateService.FieldsOfAfterReplace | src/template/template.service.ts:94-102 | after the template's old rows are deleted and the new ones inserted, the template's fields are exactly the inserted rows |
| TemplateService.Overlaps | src/template/template.service.ts:182-185 | the SQL array overlap `&&`: it holds whenever some filter value is stored, and never when either side is empty |
| TemplateService.OverlapsIsIntersection | src/template/template.service.ts:182-185 | the array-overlap filter holds exactly when the stored values and the filter share an element |
| TemplateService.TemplatesService.FindFieldsByTemplateId | src/template/template.service.ts:203-207 | exactly the field rows pointing to the template, unchanged; an unknown template has none |
| TemplateService.TemplatesService.GetTemplateById | src/template/template.service.ts:65-70 | a result exactly for a stored id, carrying that template and exactly its field rows |
| TemplateService.TemplatesService.FindTemplates | src/template/template.service.ts:178-190 | with a non-empty filter, exactly the templates that overlap it; with an absent or empty filter, every template |
| TemplateService.TemplatesService.FindResponsesByStudentId | src/template/template.service.ts:192-201 | exactly the student's responses, each joined with its own template and with the student |
| TemplateService.TemplatesService.FindAllResponsesWithUserDetails | src/template/template.service.ts:209-222 | every response, or exactly those in the given status, each joined with its template and student |
| TemplateService.TemplatesService.CreateTemplate | src/template/template.service.ts:34-63 | fails with the fields message when the fields are missing, not an array or empty. Otherwise, a request without a file fails with the error of reading `file.path`. Both failures store nothing, and the call fails exactly in these cases. Otherwise it stores one new template with the given name, path and specializations, then one field per name in order, and these are all of the template's fields |
| TemplateService.TemplatesService.SaveField | src/template/template.service.ts:97-100 | one new field row under the next id |
| TemplateService.TemplatesService.DeleteFieldsOf | src/template/template.service.ts:95 | removes exactly the template's field rows |
| TemplateService.TemplatesService.SaveFieldsInOrder | src/template/template.service.ts:96-101 | the loop adds exactly one row per name, in order, with consecutive ids |
| TemplateService.TemplatesService.ReplaceFields | src/template/template.service.ts:94-102 | afterwards the template's fields are exactly the new list; other templates' fields stay as they were |
| TemplateService.TemplatesService.UpdateTemplate | src/template/template.service.ts:72-106 | NotFound, changing nothing, exactly for an unknown id. Otherwise the path changes only if a file is given, the name only if a non-empty one is given, and the specializations only if a list is given. A given field list replaces all the template's fields and leaves other fields alone. updateDate is always set |
| TemplateService.TemplatesService.DeleteTemplate | src/template/template.service.ts:108-126 | NotFound, changing nothing, exactly for an unknown id. Otherwise it removes the template, its fields and its responses, and nothing else. The second not-found check cannot fire |
| TemplateService.TemplatesService.FillTemplate | src/template/template.service.ts:128-176 | a plain error and no new response when the template or student is missing or rendering fails. Otherwise exactly one new response is added, in status SENT, holding the submitted values and the returned output path |
| TemplateService.TemplatesService.UpdateResponseStatus | src/template/template.service.ts:224-239 | NotFound exactly for an unknown id. Otherwise the status becomes the given one, whatever it was, and nothing else changes |
| TemplateController.SplitTrim | src/template/template.controller.ts:104-108 | one trimmed, comma-free piece per comma-separated piece, in order, with empty pieces kept: comma count plus one |
| TemplateController.SplitTrimJoin | src/template/template.controller.ts:104-108 | a comma-joined list of trimmed, comma-free names splits back into those names |
| TemplateController.NormaliseUpload | src/template/template.controller.ts:104-116 | a string becomes its split and trimmed pieces; an array or an absent value is left as it is |
| TemplateController.NormaliseUpdate | src/template/template.controller.ts:220-233 | only a non-empty string is split and trimmed; everything else, including the empty string, is left as it is |
| TemplateController.ArrayValue | src/template/template.service.ts:38-40 | the fields are used exactly when they are an array |
| TemplateController.Supplied | src/template/template.service.ts:90-94 | after normalisation a value counts as supplied exactly when it is an array, empty or not |
| TemplateController.StoredSpecializations | src/template/template.service.ts:47 | the template stores the submitted list, or no specializations when none were submitted |
| TemplateController.Wrap | src/template/template.controller.ts:144-147 | a single non-empty value becomes a one-element list, an array stays as it is, and an absent value or the empty string stays absent |
| TemplateController.ParseAll | src/template/template.controller.ts:149-155 | succeeds exactly when every value is an enumeration member, giving those members in order. Otherwise a BadRequest naming the first bad value |
| TemplateController.GetTemplates | src/template/template.controller.ts:139-159 | no filter lists every template. A bad specialization is a BadRequest naming the first one. Otherwise the service's overlap query runs over the parsed filter |
| TemplateController.UploadTemplate | src/template/template.controller.ts:100-119 | fails, storing nothing, exactly when fields are absent or an empty array or no file is uploaded. Otherwise the new template holds the name, the file's path, the normalised specializations and the time. A comma-separated string yields one field per piece. Only the new template and its fields are added; other templates, fields and responses are unchanged |
| TemplateController.UpdateTemplate | src/template/template.controller.ts:215-236 | NotFound, storing nothing, exactly for an unknown id. Otherwise the stored template is the returned one. Its path changes only with a file and its name only with a non-empty name. A non-empty specializations string becomes its trimmed pieces, an array is stored as given, and an absent or empty value keeps the old list. A fields string or array replaces the fields by its pieces or items, and absent or empty fields keep them. A supplied field list deletes exactly the template's old rows and adds exactly the new ones, so other templates' fields and all responses are unchanged |
| TemplateController.ParseResponsesQuery | src/template/template.controller.ts:355-405 | succeeds exactly when every wrapped specialization and faculty is valid. The parsed lists hold, in order, the members whose values were given. A BadRequest names the first bad specialization, or, when all of those are valid, the first bad faculty. Years are wrapped, and page and limit default to 1 and 10 |
| UserService.LoginReply | src/user/user.service.ts:51-86 | the login decision answers 200, 400 or 401, carries a token exactly with 200, and a token only for a known e-mail |
| UserService.LoginOutcomes | src/user/user.service.ts:51-86 | 400 exactly for an invalid request, 200 with a token over id, e-mail and role exactly for a known user whose hash matches, and 401 otherwise |
| UserService.LoginAfterReset | src/user/user.service.ts:137 | after a reset the new password logs in, and an old password that does not match the new hash no longer does |
| UserService.UserService.UpdateUserRole | src/user/user.service.ts:25-42 | NotFound for an unknown e-mail. The same role is an "already exists" error that stores nothing. Otherwise the user is stored and returned with the new role |
| UserService.UserService.Login | src/user/user.service.ts:44-87 | the flag-driven code answers exactly the login decision above, 200 exactly for a known user with a matching hash |
| UserService.UserService.SaveNewUser | src/user/user.service.ts:107-110 | the save fails exactly on a duplicate e-mail. A new row stores the hashed password and no role |
| UserService.UserService.CreateUserAsWritten | src/user/user.service.ts:89-121 | the registration as written. A hashing error escapes before validation and changes nothing. A failed validation answers 400 "Invalid content". A duplicate non-Student is demoted to Student and answered 400, and a duplicate Student's role error escapes. A new e-mail gets a Student row with the hash and a 201 |
| UserService.UserService.CreateUser | src/user/user.service.ts:89-121 | a hashing error escapes and changes nothing, as written; otherwise it never fails. 400 "Invalid content" when validation fails. 400 "User already exists", with the table unchanged, for a duplicate e-mail. Otherwise 201 and a new Student row holding the password hash |
| UserService.UserService.ResetPassword | src/user/user.service.ts:123-139 | NotFound for an unknown e-mail. A rejected comparison (missing or non-string password) is a plain error that changes nothing. BadRequest, changing nothing, when the new password matches the stored hash. Otherwise only that user's hash changes |
| UserService.RegisterDemotesAdmin | src/user/user.service.ts:106-117 | registering an existing Admin's e-mail demotes the Admin to Student and answers 400 |
| UserService.RegisterExistingStudentThrows | src/user/user.service.ts:112 | registering an existing Student's e-mail ends in an error answered with 500 instead of 400 |
| UserService.RegisterKeepsAdmin | src/user/user.service.ts:106-117 | with the corrected registration the same request leaves the Admin's role alone |
| UserController.Send | src/user/user.controller.ts:27-37 | login and register answer with the service's status and body unchanged |
| UserController.ChangeRoleResponse | src/user/user.controller.ts:44-61 | success wraps the updated user. An error mentioning "already exists" becomes a Conflict and any other error a NotFound, both keeping the message |
| UserController.ConflictWhenMentioned | src/user/user.controller.ts:56-58 | any failure whose message mentions "already exists" is answered with a Conflict carrying that message |
| UserController.SameRoleIsConflict | src/user/user.controller.ts:56-58 | the service's repeated-role error is answered with a Conflict |
| UserController.UnknownEmailIsNotFound | src/user/user.controller.ts:59 | the service's unknown-user error is answered with a NotFound, for any e-mail without a space |
| Wrappers.Failure.Status | src/user/user.service.ts:38 | an uncaught failure is answered with its kind's status: 404, 400 and 409 for the NestJS exceptions, 500 exactly for a plain `Error` |
| UserController.ResetPasswordResponse | src/user/user.controller.ts:63-77 | NotFound and BadRequest pass through unchanged. Any other failure becomes BadRequest "Error processing your request" |

## Left out

- Document rendering and conversion (Docxtemplater and PizZip in
  `fillTemplate`, mammoth in `convertDocToHtml`) are not modelled. These
  libraries work on binary zip and XML documents. Rendering is reduced to
  whether it threw and the path it wrote to.
- The `getDocHtml` and download routes only read files, so they are not
  modelled.
- File reads and writes, multer storage and file naming are not modelled.
  File paths are plain parameters.
- Clock values are the parameter `now`.
- bcrypt and JWT are not modelled. Hashes are values produced outside, and
  comparison is the parameter `matches`. What hashing throws and what the
  comparison in `resetPassword` rejects with are parameters too
  (`passwordHash` as a Result, `compareError`). Key loading and the JWT
  strategy are not modelled either.
- Validation decorators are not modelled. Their verdict is the `validates`
  flag of login and registration. At registration the password rule only
  ever sees the hash, because hashing runs first.
- UserController.UnknownEmailIsNotFound: proved only for addresses without a
  space. The change-role route's e-mail check also admits quoted local parts
  that contain spaces. For such an address the message could contain
  "already exists", and the model says nothing about it.
- TemplateService.TemplatesService.CreateTemplate: specializations are stored
  as the submitted strings. The query at `template.service.ts:183` casts to
  an enum-array column, so the database would refuse a value outside the
  enumeration. That refusal is not modelled, and neither is the same refusal
  in `UpdateTemplate`.
- The controller calls four operations that the service does not define:
  `updateStudentResponse`, `getStudentResponseById`, `deleteStudentResponse`
  and `findAllApprovedResponsesWithinRangeWithUserDetails`. They are not
  modelled because no behaviour is given for them. Stored `reason` and
  paginated totals are left out for the same reason.
- TemplateController.ParseResponsesQuery: the controller passes an object
  with all filters to `findAllResponsesWithUserDetails`, but the service
  takes only a status. The model stops at the parsed query and does not
  compose the two.
- TemplateService.TemplatesService.FillTemplate,
  TemplateService.TemplatesService.UpdateResponseStatus and
  UserService.UserService.ResetPassword: their request bodies are taken to
  have their DTO types (numeric ids, a status of the enumeration, a string
  e-mail). No validation pipe enforces those types on the fill,
  change-status and reset-password routes. Absent or ill-typed values are
  not modelled. Examples are a change-status body without a status, which
  stores `undefined`, and a reset body without an e-mail, which looks up
  `{email: undefined}`.
- Result order is not modelled. Queries return maps keyed by id, because the
  source asks for no order.
- Field values in a response are strings. The source accepts any JSON value.
- Specialization and faculty values equal the member names. The file
  `src/shared/spec.enum.ts` and the faculty enum are not part of this model.
- Registration uses no class-validator rules beyond the `validates` flag, so
  rows store the submitted faculty, specialization and year as they are.
- Repository errors other than the duplicate e-mail on save are not
  modelled. These include database failures and the `affected` count of
  deletes beyond the dead check.
- Concurrency is not modelled. Every call is awaited in sequence.

## Findings

| source | as written | input that shows it | evidently intended | confidence | as-written member | corrected member |
|---|---|---|---|---|---|---|
| src/user/user.service.ts:106-117 | after the save fails on a duplicate e-mail, `createUser` still calls `updateUserRole(email, STUDENT)` | registering the e-mail of an existing Admin demotes the Admin to Student and answers 400; for an existing Student the role error escapes and the answer is 500 | assign the Student role only to a newly saved account; a duplicate answers 400 and leaves the account alone | high, not executed | UserService.UserService.CreateUserAsWritten | UserService.UserService.CreateUser |
