# Telecom shop back office: image picker, subscription offers and user profiles

This project models three pieces of a Next.js shop that sells SIM subscriptions.

- **The image picker** (`UploadImage` with `DisplaySelectedImages` and `DisplayImages`). An admin drops or picks image files. Each accepted file is uploaded to an S3 bucket under a key built from ten random letters or digits, a dash and the file's name without extension or whitespace. The picker then refreshes the bucket listing and updates the selection it shares with its parent form. In single mode that selection is replaced; in multiple mode it grows. Below, a gallery lists the bucket's images that are not selected and that match a search text, ten per page. Each can be picked or deleted.
- **`/api/subscriptions`**. POST lets an admin create a subscription offer after four required-field checks. GET lists the offers that are not archived, newest first, optionally only the featured ones.
- **`/api/users/id`**. DELETE removes the signed-in user. PATCH updates seven profile fields of the signed-in user, then mirrors name, tax status, address and locale on the user's Stripe customer.

The modules follow that structure:

- `Web` (web.dfy): JSON body fields with JavaScript truthiness (a field is left out, `null`, or a value), the session and the response.
- `Seqs` (seqs.dfy): `Array.prototype.filter` and its laws.
- `ImageKeys` (image_keys.dfy): the drop filter, the random prefix and the object key.
- `Gallery` (image_gallery.dfy): the gallery's filter, search, paging and button rules.
- `ImagePicker` (image_picker.dfy): the uploads and the class `Picker`, holding the component's state with one method per handler.
- `Subscriptions` (subscriptions.dfy): the POST validator and record, the class `SubscriptionStore` (the table as a sequence of records), and the GET query.
- `Users` (users.dfy): the update and the Stripe customer fields, and the class `UserTable` (the table as a map from identifier to user).

The outside world is passed in as arguments:

- random draws;
- whether the server signed an upload, and whether its PUT resolved;
- the listing and deletion outcomes;
- the database's identifier and creation time, and whether `create` and `deleteMany` resolved;
- the JSON parser's answer for `adresse`;
- whether the Stripe call returned.

A body that `req.json()` cannot parse is `None`. So is a JSON `null` body: destructuring it throws, which also lands in the handler's 500 branch.

Two orderings in the code decide the status:

- `req.json()` is awaited before the session is read in POST and PATCH, so an unparsable body gives 500 even without a session.
- In PATCH the record is written before `adresse` is parsed and before the Stripe customer is checked, so the 400 for a missing customer comes after the update.

## Model

| member | source | states |
|---|---|---|
| Seqs.Keep | components/images-upload/image-upload.tsx:249 | `filter` keeps exactly the elements passing the test, and never lengthens the list |
| ImageKeys.Accepted | components/images-upload/image-upload.tsx:45-60 | a dropped file is kept exactly when its MIME type is png, jpeg, jpg or webp |
| ImageKeys.RejectedNames | components/images-upload/image-upload.tsx:53-56 | a name is reported exactly when some dropped file with that name has an unsupported MIME type |
| ImageKeys.AcceptedAppend | components/images-upload/image-upload.tsx:45-60 | both the kept files and the reported names commute with concatenation, so each stays in drop order |
| ImageKeys.AcceptedOrRejected | components/images-upload/image-upload.tsx:46-60 | the kept files and the reported names together number the dropped files, and each dropped file is kept or has its name reported |
| ImageKeys.FilterDropped | components/images-upload/image-upload.tsx:45-60 | the loop pushes exactly the supported files and reports exactly the others, each in order |
| ImageKeys.FilterStep | components/images-upload/image-upload.tsx:46-59 | one more dropped file is pushed after the kept ones when supported, otherwise its name is reported after the earlier names |
| ImageKeys.Clamp | components/images-upload/image-upload.tsx:70 | a `substring` position is clamped to the string, and one inside it is kept |
| ImageKeys.Substring | components/images-upload/image-upload.tsx:70 | `substring` gives at most the whole string; between ordered positions inside the string it is that run, with the positions swapped when reversed; the whole string for positions around it, empty for two non-positive positions |
| ImageKeys.LastIndexOf | components/images-upload/image-upload.tsx:70 | the result is -1 or a position holding the character, and no later position holds it |
| ImageKeys.BaseName | components/images-upload/image-upload.tsx:68-70 | the whole name when no dot follows the first character; otherwise the non-empty prefix before the last dot |
| ImageKeys.StemOfNameWithExtension | components/images-upload/image-upload.tsx:69-70 | removing an extension from `stem.ext` gives back `stem` |
| ImageKeys.StripWhitespace | components/images-upload/image-upload.tsx:72 | the result holds no whitespace and is never longer than the input; one character is dropped exactly when it is whitespace |
| ImageKeys.StripAppend | components/images-upload/image-upload.tsx:72 | stripping works part by part, so the characters kept stay in order, each with its count |
| ImageKeys.StripIsIdentityIff | components/images-upload/image-upload.tsx:72 | stripping leaves a name unchanged exactly when it holds no whitespace |
| ImageKeys.StripIdempotent | components/images-upload/image-upload.tsx:72 | stripping twice is stripping once |
| ImageKeys.StripKeeps | components/images-upload/image-upload.tsx:72 | a character survives stripping exactly when it is in the name and is not whitespace |
| ImageKeys.AlphabetIsAlphanumeric | components/images-upload/image-upload.tsx:435 | the alphabet has 62 characters, each a letter or a digit |
| ImageKeys.DrawnIsAlphanumeric | components/images-upload/image-upload.tsx:434-441 | n draws spell n letters or digits, so no whitespace |
| ImageKeys.GenerateRandomString | components/images-upload/image-upload.tsx:434-441 | the loop returns max(length, 0) characters, the i-th being the alphabet at the i-th draw, each alphanumeric |
| ImageKeys.UniqueKey | components/images-upload/image-upload.tsx:71-72 | the key is the random prefix, a dash, then the stripped base name; no whitespace when the prefix has none |
| ImageKeys.KeyFor | components/images-upload/image-upload.tsx:68-72 | every upload key has ten alphanumeric characters, then a dash, and no whitespace |
| ImageKeys.DisplayedNameOfKey | components/images-upload/image-upload.tsx:348 | the gallery label of an uploaded image (key from position 11) is the file's stripped base name |
| ImagePicker.UploadResult | components/images-upload/image-upload.tsx:66-93 | one upload resolves to the file's key exactly when the server signed it, to null otherwise; a key holds no whitespace |
| ImagePicker.UploadResults | components/images-upload/image-upload.tsx:66-96 | `Promise.all` gives one result per file, in file order, the i-th being the i-th file's key exactly when it was signed |
| ImagePicker.UploadAll | components/images-upload/image-upload.tsx:65-96 | the loop fails exactly when a signed file's PUT rejects; otherwise it returns the results of `Promise.all`, with no whitespace in any key |
| ImagePicker.SelectionAfterUpload | components/images-upload/image-upload.tsx:109-113 | multiple mode gives the old selection followed by the non-null keys, in result order (so it keeps the old selection as a prefix and adds exactly the non-null keys); single mode leaves one key, the first result when non-null, else "" |
| ImagePicker.NonNull | components/images-upload/image-upload.tsx:110 | a key is kept exactly when it is a non-null result |
| ImagePicker.NonNullAppend | components/images-upload/image-upload.tsx:110 | filtering out the nulls works part by part, so the kept keys stay in result order |
| ImagePicker.NonNullOfAllSome | components/images-upload/image-upload.tsx:110 | with no null result, every key is kept, in order |
| ImagePicker.MultipleModeAppendsEveryKey | components/images-upload/image-upload.tsx:109-110 | in multiple mode with every upload signed, the selection is the old one followed by each file's key in file order |
| ImagePicker.MultipleModeOnlyAddsUploadedKeys | components/images-upload/image-upload.tsx:109-110 | in multiple mode the old selection is a prefix, and each added key belongs to a signed file |
| ImagePicker.SingleModeSelection | components/images-upload/image-upload.tsx:111-113 | in single mode the selection has one key: the first file's when signed, otherwise "" (also for no file) |
| ImagePicker.RemoveUndoesPick | components/images-upload/image-upload.tsx:249 | removing a key just appended, which was not selected before, restores the selection |
| ImagePicker.Picker.constructor | components/images-upload/image-upload.tsx:23-26 | the picker starts with the parent's selection, an empty listing and no spinner; its gallery starts on page 1 with an empty search, as `DisplayImages` sets them at lines 282 and 285 |
| ImagePicker.Picker.Page | components/images-upload/image-upload.tsx:321-327 | the gallery shows exactly page `currentPage` of the offered images (`PageOf`, with its window given by `PageContents`): at most ten, each listed, keyed and not selected |
| ImagePicker.Picker.FetchFiles | components/images-upload/image-upload.tsx:117-126 | a successful listing replaces the gallery's, a failed one changes nothing |
| ImagePicker.Picker.FileChange | components/images-upload/image-upload.tsx:65-115 | a rejected PUT stops the handler with the spinner and both lists as they were; otherwise the spinner goes off, a failed listing leaves both lists alone, and a good one replaces the listing and updates the selection by mode |
| ImagePicker.Picker.HandleFile | components/images-upload/image-upload.tsx:28-40 | an empty pick returns with the spinner on, nothing uploaded and nothing changed; otherwise the spinner goes on and the picked files are uploaded as above |
| ImagePicker.Picker.HandleDrop | components/images-upload/image-upload.tsx:42-63 | exactly the unsupported files' names are reported, the supported ones, in order, are uploaded as above |
| ImagePicker.Picker.Pick | components/images-upload/image-upload.tsx:366-373 | multiple mode appends the key (or "") to the selection, single mode replaces the selection with it |
| ImagePicker.Picker.RemoveSelected | components/images-upload/image-upload.tsx:247-250 | every occurrence of the key leaves the selection, other keys keep their occurrences |
| ImagePicker.Picker.Delete | components/images-upload/image-upload.tsx:287-304 | a confirmed deletion of a non-empty key removes it from listing and selection and nothing else; otherwise neither list changes |
| ImagePicker.Picker.SetSearch | components/images-upload/image-upload.tsx:316 | the search text is replaced, nothing else changes |
| ImagePicker.Picker.PreviousPage | components/images-upload/image-upload.tsx:389-393 | the page goes back by one except on page 1 |
| ImagePicker.Picker.NextPage | components/images-upload/image-upload.tsx:401-405 | the page goes forward by one unless page times ten reaches the listing's length less the selection's |
| Gallery.Without | components/images-upload/image-upload.tsx:249 | the key no longer occurs, other keys keep their counts, and a list without the key is unchanged |
| Gallery.WithoutAppend | components/images-upload/image-upload.tsx:249 | removing a key from two lists joined is removing it from each, so the order of the others is kept |
| Gallery.KeepOtherKeys | components/images-upload/image-upload.tsx:298 | an object stays exactly when its key differs, with its multiplicity |
| Gallery.KeepOtherKeysAppend | components/images-upload/image-upload.tsx:298 | dropping a key's objects from two listings joined is dropping them from each, so the order of the others is kept |
| Gallery.Includes | components/images-upload/image-upload.tsx:325 | a text only includes one no longer than itself, and every text includes the empty one |
| Gallery.IncludesIff | components/images-upload/image-upload.tsx:325 | `includes` holds exactly when the text occurs at some position |
| Gallery.LowerChar | components/images-upload/image-upload.tsx:325 | an ASCII capital becomes its small letter, any other character stays |
| Gallery.ToLower | components/images-upload/image-upload.tsx:325 | lowercasing keeps the length, leaves no ASCII capital and changes no other character |
| Gallery.Visible | components/images-upload/image-upload.tsx:322-326 | an object is offered exactly when it is listed, keyed, not selected and its lowercased key contains the lowercased search |
| Gallery.EmptySearchMatchesEveryKey | components/images-upload/image-upload.tsx:325 | with an empty search every keyed, unselected object is offered |
| Gallery.SliceIndex | components/images-upload/image-upload.tsx:327 | a `slice` position is clamped to the list, a negative one counts from the end, one inside the list is kept |
| Gallery.Slice | components/images-upload/image-upload.tsx:327 | `slice` gives a contiguous run of the list starting at its clamped start: the run between ordered positions inside the list, nothing when the end is not after the start |
| Gallery.PageOf | components/images-upload/image-upload.tsx:322-327 | a page shows at most ten images, each listed and offered by the search and selection |
| Gallery.PageContents | components/images-upload/image-upload.tsx:327 | page p holds at most ten offered images: those at positions (p-1)*10 up to p*10 |
| Gallery.ItemOnItsPage | components/images-upload/image-upload.tsx:327 | the i-th offered image is at place i mod 10 on page i / 10 + 1 |
| Gallery.PrevDisabled | components/images-upload/image-upload.tsx:393 | "Précedent" is disabled exactly when there is no earlier page |
| Gallery.NextDisabled | components/images-upload/image-upload.tsx:405 | "Suivant" is enabled only while the listing holds images past the page; with nothing selected, disabled exactly when it does not |
| Gallery.NextDisabledWhileItemsRemain | components/images-upload/image-upload.tsx:405 | since the Next rule compares raw counts, Next can be disabled on page 1 while page 2 still holds an image |
| Subscriptions.Rejection | app/api/subscriptions/route.ts:22-53 | the request passes exactly when an admin sends truthy name, priceHT, recurrence and dataCap; 401 exactly without an admin, otherwise 400 |
| Subscriptions.FirstFalsyFieldReported | app/api/subscriptions/route.ts:27-53 | each 400 message names the first falsy field in the order name, priceHT, recurrence, dataCap |
| Subscriptions.UnauthorizedIgnoresBody | app/api/subscriptions/route.ts:22-25 | without an admin the answer is 401 whatever the body |
| Subscriptions.ZeroIsMissing | app/api/subscriptions/route.ts:33-53 | a priceHT or dataCap of 0 is refused as missing |
| Subscriptions.OptionalFieldsNotChecked | app/api/subscriptions/route.ts:27-53 | description, specifications, activation fee and flags never affect validation |
| Subscriptions.Persisted | app/api/subscriptions/route.ts:61-62 | a definition of the ORM's storing of an optional text, case by case: as given, or null when left out; never left out |
| Subscriptions.Flag | app/api/subscriptions/route.ts:65-66 | a definition of the ORM's storing of a flag sent or left out: true exactly when the body sends true; a null flag never reaches it |
| Subscriptions.NewRecord | app/api/subscriptions/route.ts:55-68 | the record carries the database's id and time and the body's required fields; fraisActivation is 0 exactly when the body's is falsy, otherwise as given; priceTTC is priceHT times 1.2; description and productSpecs are stored as `Persisted` gives them; isFeatured and isArchived are true exactly when sent true |
| Subscriptions.PriceTTCFromPriceHTOnly | app/api/subscriptions/route.ts:59 | the stored priceTTC depends on priceHT alone; a priceTTC in the body changes nothing |
| Subscriptions.SubscriptionStore.Post | app/api/subscriptions/route.ts:6-75 | an unparsable or null body gives 500, a rejection is returned as is, a failed `create` gives 500 (also for a `null` flag, which `create` refuses), and in these cases the table is unchanged; otherwise exactly the new record is appended and returned; the status is 200 exactly when the table grew by one |
| Subscriptions.DescendingIsNewestFirst | app/api/subscriptions/route.ts:87-89 | a list in which each record is at least as new as the next is ordered newest first throughout |
| Subscriptions.Insert | app/api/subscriptions/route.ts:87-89 | inserting into a descending list keeps it descending, one record longer |
| Subscriptions.InsertCounts | app/api/subscriptions/route.ts:87-89 | insertion adds exactly the one record and keeps every other with its multiplicity |
| Subscriptions.SortNewestFirst | app/api/subscriptions/route.ts:87-89 | the result is descending by creation time and a permutation of the input |
| Subscriptions.List | app/api/subscriptions/route.ts:77-92 | GET returns each unarchived record (featured only when the parameter is non-empty) once per copy, newest first |
| Subscriptions.FalseTextStillFilters | app/api/subscriptions/route.ts:80-84 | `?isFeatured=false` still returns only featured offers |
| Subscriptions.CreatedOfferIsListed | app/api/subscriptions/route.ts:55-90 | a created offer whose flags are not null and that is not archived appears in GET, in the featured GET too when featured |
| Users.Updated | app/api/users/id/route.ts:49-62 | each of the seven fields sent overwrites its column, a field left out keeps it, and every other column is unchanged |
| Users.UpdateIdempotent | app/api/users/id/route.ts:49-62 | applying the same update twice is applying it once |
| Users.ParseAdresse | app/api/users/id/route.ts:63 | a definition of `JSON.parse`, case by case: an `adresse` left out does not parse, a null one parses to null, a text gives the parser's answer |
| Users.CustomerName | app/api/users/id/route.ts:67 | the customer name is never empty: the company name when truthy, otherwise name, a space, then surname |
| Users.MissingSurnameSpelledUndefined | app/api/users/id/route.ts:67 | a surname left out of the body is written as "undefined" in the customer name |
| Users.TaxExempt | app/api/users/id/route.ts:68 | the tax status is "exempt" or "none", "exempt" exactly when isPro is true |
| Users.PreferredLocales | app/api/users/id/route.ts:77 | one non-empty locale, "FR" exactly when the country is falsy or is "FR" |
| Users.CustomerFields | app/api/users/id/route.ts:66-80 | the Stripe update goes to the stored customer with the parsed address and the body's tva; its name, tax status and locales are `CustomerName`, `TaxExempt` and `PreferredLocales` of the body and address: a non-empty name, "exempt" exactly for professionals, and one locale, the address's country when truthy |
| Users.UserTable.Delete | app/api/users/id/route.ts:7-29 | no user id gives 401 and a failed `deleteMany` gives 500, both with no change; otherwise every user with that id goes, the others are unchanged, and the count removed is returned |
| Users.UserTable.Patch | app/api/users/id/route.ts:31-95 | 500 for an unparsable or null body, 401 without a user id, 400 for a falsy name, 500 for an unknown user, all without change; otherwise the record is updated before the address parse (500) and the customer check (400), then the Stripe fields are sent |

## Left out

- S3 traffic. `getSignature`, the pre-signed PUT, `listFiles` and `deleteObject` are network calls; their outcomes are arguments. The PUT's status is not looked at by the code either; only a rejected PUT matters.
- `checkUrls` polling is not modelled: it waits, with delays, until remote URLs answer and has no termination argument. The model assumes it ends. A refused upload's URL ends in `/null`, which the polling also waits for.
- `Promise.all` concurrency: uploads are a sequential map in file order, which is the order `Promise.all` returns them in.
- `Math.random`: each file carries its draws of `Math.floor(Math.random() * 62)`.
- The `Reorder` drag permutation, toasts, the show/hide switch, the spinner shown for an empty listing, and all JSX rendering are presentation.
- The copy loop of `handleFile`, which moves the browser's `FileList` into an array, is the identity on the model's sequence of files.
- Gallery.ToLower: lowercases ASCII letters only; `toLowerCase` for other scripts is not modelled.
- Subscriptions.TaxIncluded: computed in exact reals; the floating-point rounding of `priceHT * 1.2` is left out.
- Subscriptions.NewRecord: the defaults are an assumption about the database schema, which is not part of this model. The flags default to false and an optional text left out is stored as null. The flag columns are taken to be non-nullable booleans, so `create` refuses a `null` flag and POST answers 500; a nullable column, which would store NULL and keep the offer out of GET, is not modelled.
- Subscriptions.SubscriptionStore.Post: `recurrence` is an enumeration in the database, and POST only checks that it is truthy. A recurrence outside the enumeration passes the checks, then `create` fails with 500. The model does not name that case: it is one of the failures the `stored` argument stands for.
- Body fields of the wrong JSON type (a number for `name`, a text for `isFeatured`) are not modelled; each field has the type the forms send, or is left out or null. Database errors in GET, and in PATCH's update of an existing record, are not modelled.
- Subscriptions.SortNewestFirst: records with equal `createdAt` keep their table order; the database's order among ties is not specified.
- NextAuth session resolution is an argument, and a missing `id` is modelled as "".
- The Stripe API call is left out: whether it returned is an argument. The update it sends is returned by `Patch`.
- `JSON.parse` of a text `adresse` is an argument. `undefined` never parses, and `null` parses to `null`.
- components/plate-ui/table-dropdown-menu.tsx, components/plate-ui/floating-toolbar.tsx, components/ui/data-table-skeleton.tsx, components/auth/auth-button.tsx and lib/plate/autoformatPlugin.ts are not part of this model: they are UI or editor-plugin configuration with no logic of their own.
