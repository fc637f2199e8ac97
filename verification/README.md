# The Library — a verified model of its rules

"The Library" (WP Resource Library) is a WordPress plugin that publishes a
library of downloadable files. A visitor leaves a name, e-mail address and
mobile number in a form, receives a download link carrying a 24-hour token,
and the site records the request. Logged-in users skip the form.

This Dafny project models the rules underneath that flow:

- **Contact validators.** The server-side mobile check (`Mobile`), the
  browser-side mobile and e-mail checks and phone-input cleaning (`Mobile`,
  `Email`), and the browser's per-field and whole-form validation
  (`FormValidation`).
- **Form-field settings.** Sanitising the saved option, reading it back with
  defaults, the enabled and required field lists (`Settings`), and the form
  and validation rules derived from them (`Frontend`).
- **The file record.** Defaults, key-wise update, the download counter
  (`FileData`), the file-type labels and the per-type count (`FileTypes`).
- **The download state machine** (`Downloads`). The state is the per-post
  file records, the token store (token to post id, with expiry) and the
  request table. The operations are the form submission, the direct download
  for logged-in users, turning a token into a link, and redeeming a link.
  Each keeps its chain of refusals in the source's order.
- **The request table** (`Database`). Listing arguments, pagination,
  deleting by id, and age-based cleanup of requests and error logs.

PHP values are modelled in `PhpValue`: `empty()`, ordered arrays with
`array_merge`, ASCII case mapping, and `intval()`. On a string, `intval()`
reads the leading numeric text as PHP 7.1 and later do: whitespace, a
sign, digits with an optional fraction, an optional exponent, truncated
toward zero. WordPress's post-meta functions file a record under the
`absint` of the post id; `Downloads.MetaKey` models that. `Text` holds sequence
filtering, character counting and JavaScript `trim`.

Everything the code asks WordPress or the outside world for arrives as a
parameter:

- nonce checks, `sanitize_text_field`, `sanitize_email`,
  `sanitize_title_for_query` and `is_email`;
- the random token and whether a database write succeeds;
- three clocks, each in seconds: `time()`, the Unix time token expiry
  counts from (`Env.now`); `current_time( 'mysql' )`, the site's local time
  a request row is dated with (`Env.localNow`); and MySQL's `NOW()`, the
  database's time the retention cleanup counts back from (the cleanup's
  `now`). Nothing ties them together, so a site whose time zone differs
  from the database's keeps rows longer or shorter than the period;
- whether an attached file is on disk;
- for a URL, the extension `pathinfo` gives.

## Model

| member | source | states |
|---|---|---|
| Mobile.IsValidMobilePhp | includes/class-utils.php:139-159 | Valid exactly when every character is a digit, ASCII whitespace, `-`, `+`, `(` or `)`, there are at least 7 digits, and the whole string has at most 20 characters. Each failed check alone rejects, so the empty string is invalid. |
| Mobile.IsValidMobileJs | assets/js/frontend.js:302-323 | Valid exactly when every character is a digit, JavaScript whitespace or one of `-+()`, and the digit count is between 7 and 15 inclusive. |
| Mobile.CleanPhone | assets/js/frontend.js:66-74 | The cleaned value is no longer than the input and holds only allowed characters. |
| Mobile.CleanPhoneKeepsAllowed | assets/js/frontend.js:69 | A character survives cleaning exactly when it occurred in the input and is allowed. |
| Mobile.CleanPhoneOfCleanInput | assets/js/frontend.js:69-73 | Input made only of allowed characters is left unchanged. |
| Mobile.CleanPhoneIdempotent | assets/js/frontend.js:69-73 | Cleaning a cleaned value changes nothing. |
| Mobile.CleanPhoneKeepsDigits | assets/js/frontend.js:69 | Cleaning removes no digit. |
| Mobile.CleanedValidity | assets/js/frontend.js:61-78 | A cleaned value passes the browser's mobile check exactly when it is non-empty and the raw input held 7 to 15 digits. |
| Mobile.PhpClassInJsClass | includes/class-utils.php:144 | Every string the server's character class accepts, the browser's accepts too. |
| Mobile.PhpJsAgreeWithinBounds | includes/class-utils.php:139-159 | Within 20 characters and 15 digits, and where the two whitespace classes agree, server and browser give the same verdict. |
| Mobile.SixteenDigitsDiverge | includes/class-utils.php:148-156 | A 16-digit number passes on the server and fails in the browser. |
| Mobile.LongFormattingDiverges | includes/class-utils.php:153-156 | A number with 7 to 15 digits whose formatting takes it past 20 characters fails on the server and passes in the browser. |
| Mobile.PaddedNumberDiverges | includes/class-utils.php:153-156 | A concrete 7-digit number padded with spaces past 20 characters: refused by the server, accepted by the browser. |
| Mobile.NoBreakSpaceDiverges | includes/class-utils.php:144 | A number containing a no-break space is refused by the server and accepted by the browser, whose `\s` includes it. |
| Email.IsValidEmail | assets/js/frontend.js:297-300 | An accepted address contains `@` and has at least five characters. Email.IsValidEmailMatchesPattern gives the exact shape. |
| Email.IsValidEmailMatchesPattern | assets/js/frontend.js:297-300 | The scan accepts exactly the strings that split as run, `@`, run, `.`, run, where each run is non-empty and free of whitespace and `@`. |
| Email.WhitespaceRejected | assets/js/frontend.js:298 | A string containing whitespace anywhere is refused. |
| Email.TwoAtSignsRejected | assets/js/frontend.js:298 | A string with two `@` signs is refused. |
| FileData.GetFileData | includes/class-utils.php:197-216 | A non-empty stored array comes back unchanged; anything else gives the default record. |
| FileData.DefaultRecordIsEmpty | includes/class-utils.php:205-213 | The default record has no file, a count of 0, size 0, type `''` and file id 0. |
| FileData.UpdateFileData | includes/class-utils.php:226-231 | The updated record is an array. |
| FileData.IncrementDownloadCount | includes/class-utils.php:240-245 | The record after counting is an array. |
| FileData.UpdateFileDataShape | includes/class-utils.php:226-231 | The updated record keeps distinct keys, and its keys are those of the current record and of the update. |
| FileData.UpdateFileDataLookup | includes/class-utils.php:226-231 | A key of the update reads the update's value; any other key reads the current record. |
| FileData.IncrementKeepsWellFormed | includes/class-utils.php:240-245 | Raising the counter keeps the record's keys distinct. |
| FileData.IncrementChangesOnlyCount | includes/class-utils.php:240-245 | The counter goes up by exactly one and every other field keeps its value. |
| FileData.IncrementKeepsFile | includes/class-utils.php:240-245 | Raising the counter leaves the file URL alone. |
| FileTypes.Explode | includes/class-utils.php:262 | Splitting on a separator gives one more part than there are separators. |
| FileTypes.SimplifiedFileType | includes/class-utils.php:254-328 | The result is always one of the nine labels. |
| FileTypes.ClassifyTotal | includes/class-utils.php:254-328 | The label is always one of the nine, and it is `File` exactly when the lower-cased extension is not in the table. |
| FileTypes.MimeExtensionBySlashes | includes/class-utils.php:259-269 | With no slash the whole input is the extension. With one slash it is the part after the slash. With two or more it is empty. |
| FileTypes.ManySlashesGiveFallback | includes/class-utils.php:261-265 | A non-URL input with two or more slashes is labelled `File`. |
| FileTypes.ClassifyEmpty | includes/class-utils.php:327 | An empty extension is labelled `File`. |
| FileTypes.ClassificationIgnoresCase | includes/class-utils.php:271 | Lower-casing the input does not change its label. |
| FileTypes.CountKeys | includes/class-utils.php:403-412 | The loop's map has an entry exactly for the types that occur, and each entry is that type's number of occurrences. |
| FileTypes.CountFileTypes | includes/class-utils.php:403-412 | A type is counted exactly when some post's record has it as a non-empty type. Its count is the number of such posts. |
| Settings.SanitizeSettings | includes/class-settings.php:157-173 | The output holds exactly the three field keys, in order. |
| Settings.SanitizedKeys | includes/class-settings.php:163-172 | The output has a key exactly when it is one of the three fields, whatever keys the input had. |
| Settings.SanitizedRequiredImpliesEnabled | includes/class-settings.php:168 | In sanitised output every required field is enabled. |
| Settings.SanitizeNonArray | includes/class-settings.php:159-161 | A null or non-array input gives every field disabled and optional. |
| Settings.SanitizeIdempotent | includes/class-settings.php:165-170 | Sanitising sanitised output changes nothing. |
| Settings.GetSettings | includes/class-settings.php:279-292 | Each of the three fields reads as an array in the result. |
| Settings.GetSettingsOfSanitized | includes/class-settings.php:279-292 | Reading back a sanitised option gives it unchanged. |
| Settings.GetSettingsLookup | includes/class-settings.php:283-289 | A missing field reads its default; a present field reads the stored array merged over the default; any other key is left as stored. A stored field that is not an array counts as an empty array (see Left out). |
| Settings.GetSettingsFieldFlags | includes/class-settings.php:283-289 | Every field of the result has both flags, and a flag the stored option sets is kept. |
| Settings.SavedSettingsReadBack | includes/class-settings.php:314-328 | After a save, a field is enabled exactly when the submitted form enabled it, and required exactly when the form set both flags. |
| Settings.IsFieldEnabled | includes/class-settings.php:300-318 | A key is enabled only when it is one of the three fields or is set in the stored option. |
| Settings.IsFieldRequired | includes/class-settings.php:325-328 | A required field is enabled. |
| Settings.GetEnabledFields | includes/class-settings.php:335-346 | The list has at most one entry per settings entry. Settings.FieldListsAgreeWithQueries states its contents. |
| Settings.GetRequiredFields | includes/class-settings.php:353-364 | The list has at most one entry per settings entry. Settings.FieldListsAgreeWithQueries states its contents. |
| Settings.RequiredImpliesEnabled | includes/class-settings.php:325-328 | A required field is always enabled. |
| Settings.GetFieldConfig | includes/class-settings.php:300-306 | A field reads its entry of `get_settings`, always an array, so the defaults fallback is never reached for it. Any other key reads as the stored option has it, or as a disabled field when it is not set there. |
| Settings.DefaultsOnlyFields | includes/class-settings.php:32-45 | The defaults set no key but the three fields. |
| Settings.UnknownFieldDisabled | includes/class-settings.php:300-306 | A key that is neither a field nor stored is neither enabled nor required. |
| Settings.RequiredFieldsWithinEnabled | includes/class-settings.php:335-364 | The required list is the enabled list with the optional fields left out, in the same order. |
| Settings.FieldListsAgreeWithQueries | includes/class-settings.php:335-364 | A field is in the enabled list exactly when it is enabled, and in the required list exactly when it is required. |
| Settings.DefaultsAsDocumented | includes/class-settings.php:32-45 | With nothing saved, name and phone are enabled and required, and e-mail is enabled and optional. |
| Frontend.GetFormValidationRules | includes/class-frontend.php:450-483 | There is at most one rule per form field. Frontend.RulesFollowSettings says which fields have one. |
| Frontend.RenderFormField | includes/class-frontend.php:424-443 | The rendered field keeps its name, type and input type, and is marked required exactly as asked. |
| Frontend.GetDownloadFormFields | includes/class-frontend.php:370-412 | At most the three fields are rendered. Frontend.FormFollowsSettings says which. |
| Frontend.SortFor | includes/class-frontend.php:162-186 | Every sort choice orders ascending or descending. |
| Frontend.RulesFollowSettings | includes/class-frontend.php:450-483 | Each field has a rule exactly when it is enabled. The rule is enabled, its required flag is the field's, and its type is text, email or tel. |
| Frontend.NoRuleForOtherNames | includes/class-frontend.php:450-483 | No name other than the three field names has a rule. |
| Frontend.FormFollowsSettings | includes/class-frontend.php:370-412 | Each field is rendered exactly when it is enabled, marked required exactly when it is required. |
| Frontend.FormInFixedOrder | includes/class-frontend.php:376-409 | The rendered fields always come in the order name, e-mail, phone. |
| Frontend.FormMatchesRules | includes/class-frontend.php:370-483 | Form and rules list the same fields in the same order, with the same required flag and input type, so the browser validates what the form shows. |
| Frontend.RenderedFieldMarks | includes/class-frontend.php:424-443 | A rendered field's id is `wprl_` plus its name. It carries the required attribute, and its caption ends in ` *`, exactly when it is required. |
| Frontend.SortChoicesDistinct | includes/class-frontend.php:162-186 | An unknown sort value orders like `date_desc`; the five named choices give five different orders; only `downloads` sets a meta key. |
| Frontend.ModifyMainQuery | includes/class-frontend.php:121-126 | Admin requests, secondary queries and pages other than the files archive are left untouched. |
| Frontend.ArchiveQueryLookup | includes/class-frontend.php:126-187 | On the archive, every query variable holds what the request asks for: 12 per page, the search, category, file type and sort order when given. The category id is read with `intval`, so `"1e1"` names category 10. Every other variable is unchanged. |
| Frontend.ArchivePageSize | includes/class-frontend.php:127 | The archive query always lists 12 files per page. |
| Frontend.FilterKeepsOthers | includes/class-frontend.php:126-159 | The filters touch only page size, search, category and file type. |
| Frontend.ModifyMainQueryIdempotent | includes/class-frontend.php:121-189 | Adjusting an already adjusted query changes no variable. |
| FormValidation.ValidateField | assets/js/frontend.js:343-375 | A field without an enabled rule passes, and a required field left blank fails. FormValidation.FieldVerdict gives the full verdict. |
| FormValidation.OnInput | assets/js/frontend.js:61-78 | Only a phone field's value is changed by typing; the name and type of every field are kept. |
| FormValidation.FieldVerdict | assets/js/frontend.js:343-375 | A field without an enabled rule passes. A blank field passes exactly when it is optional. A non-blank field passes exactly when its type's format check does. |
| FormValidation.OnInputStable | assets/js/frontend.js:61-78 | A second input event changes nothing further, and cleaning keeps every digit. |
| FormValidation.OnInputPhoneVerdict | assets/js/frontend.js:61-78 | A checked phone field that is non-blank after cleaning passes exactly when the typed text held 7 to 15 digits. |
| FormValidation.FieldErrorsMatchVerdict | assets/js/frontend.js:384-425 | A name, e-mail or phone field records a message exactly when it fails the single-field check. |
| FormValidation.CheckField | assets/js/frontend.js:384-425 | One pass of the loop agrees with the single-field check and records that field's messages. |
| FormValidation.ValidateForm | assets/js/frontend.js:378-432 | The form is valid exactly when every field passes the single-field check. The message is the first recorded error, or the fallback when none was recorded. |
| FormValidation.ValidFormSilent | assets/js/frontend.js:428-431 | A form whose fields all pass records no error. |
| FormValidation.FailingFormExplained | assets/js/frontend.js:396-431 | When any rendered field fails, an error is recorded and the message is not the fallback. |
| FormValidation.FormErrorsAreMessages | assets/js/frontend.js:400-424 | No recorded error is the fallback text. |
| FormValidation.RenderedTypesKnown | includes/class-frontend.php:370-412 | Every rendered field is of type name, e-mail or phone. |
| FormValidation.ValueOf | assets/js/frontend.js:172-179 | A name is absent from the posted data exactly when no rendered input carries it. |
| FormValidation.SubmitForm | assets/js/frontend.js:148-179 | The form is posted exactly when every field passes, with the rendered inputs' values. Otherwise the validation message is shown and nothing is sent. |
| FormValidation.RequiredBlankBlocks | assets/js/frontend.js:354-356 | A required field left blank fails. |
| FormValidation.DisabledFieldUnchecked | assets/js/frontend.js:349-351 | A field the settings disable is never checked and records no error. |
| FormValidation.PhoneOffNoMobile | assets/js/frontend.js:172-179 | With the phone field disabled, the browser posts no mobile number. |
| FormValidation.PhoneOffFormRefused | includes/class-download-handler.php:38-44 | With the phone field disabled, the server refuses every form the browser sends as having missing fields. |
| PhpValue.MergeLookup | includes/class-utils.php:228 | In a merge, a key of the second array reads that array's value; any other key reads the first array. |
| PhpValue.DecimalRoundTrip | includes/class-download-handler.php:207 | The post id written into a link reads back unchanged through `intval`. |
| PhpValue.IntVal | includes/class-download-handler.php:207 | Empty values read as 0. So does a string whose first character is neither whitespace nor the start of a number. |
| PhpValue.IntValOfInteger | includes/class-download-handler.php:207 | A run of digits followed by neither a digit, a decimal point nor an exponent reads as the run's decimal value. |
| PhpValue.IntValOfFraction | includes/class-download-handler.php:207 | Digits after a decimal point are dropped, so `"12.9"` reads as 12. |
| PhpValue.IntValOfExponent | includes/class-download-handler.php:207 | A non-negative exponent multiplies by that power of ten, so `"1e3"` reads as 1000. |
| PhpValue.IntValOfNegativeExponent | includes/class-download-handler.php:207 | A negative exponent divides by that power of ten and truncates, so `"5e-1"` reads as 0. |
| PhpValue.IntValNegates | includes/class-download-handler.php:207 | A leading minus sign negates the value of the rest. |
| PhpValue.IntValReadsExponent | includes/class-download-handler.php:207 | `"1e3"` reads as 1000. |
| PhpValue.IntValReadsTen | includes/class-frontend.php:142 | `"1e1"` reads as 10. |
| PhpValue.IntValReadsHalf | includes/class-download-handler.php:207 | `"5e-1"` reads as 0. |
| PhpValue.IntValReadsFraction | includes/class-download-handler.php:207 | `"12.9"` reads as 12. |
| Downloads.MetaKey | includes/class-utils.php:197-204 | A post's meta key is the absolute value of its id. It is 0, meaning no record, exactly for id 0. |
| Downloads.FileMeta | includes/class-utils.php:197-204 | A post's record is the one stored under its meta key, or the empty value when none is stored. |
| Downloads.MetaIgnoresSign | includes/class-utils.php:197-204 | A negative id reads the same record as its absolute value. |
| Downloads.WriteMeta | includes/class-utils.php:226-231 | Writing a record leaves the token store and the request table alone. |
| Downloads.Transient | includes/class-download-handler.php:213-219 | A token reads as its post id while it is live. It reads as absent exactly when it was never stored or its expiry lies before now. |
| Downloads.IssueToken | includes/class-download-handler.php:372-393 | The link carries `wprl_download=1`, the token and the post id; the request table is untouched. |
| Downloads.IssueTokenGrant | includes/class-download-handler.php:376-382 | The token opens the post for 24 hours and then lapses. No other token changes. |
| Downloads.IssueTokenMeta | includes/class-download-handler.php:373-374 | The post's download count goes up by one and its file stays. |
| Downloads.IssueTokenKeepsOther | includes/class-download-handler.php:373-374 | Every post filed under another meta key keeps its record. The meta key is the id's absolute value, so `-5` and `5` share a record. |
| Downloads.IssueTokenValid | includes/class-download-handler.php:372-393 | Issuing for a real post keeps ids positive and stored records well formed. |
| Downloads.SubmitDownloadForm | includes/class-download-handler.php:34-125 | A refused submission changes nothing. The nonce check fails exactly when the nonce is bad. |
| Downloads.MissingFieldRejectedFirst | includes/class-download-handler.php:38-44 | A submission is refused as missing fields exactly when the post id, name or mobile is absent. The e-mail may be absent. |
| Downloads.EmptyRequiredRejected | includes/class-download-handler.php:52-58 | An empty name or mobile is refused before the number's format, the e-mail or the file is looked at. |
| Downloads.BadMobileRejected | includes/class-download-handler.php:60-67 | An invalid mobile is refused before the e-mail and the file are looked at. |
| Downloads.BadEmailRejected | includes/class-download-handler.php:69-76 | A non-empty e-mail that `is_email` refuses is refused before the file is looked at. |
| Downloads.NoFileRejected | includes/class-download-handler.php:78-86 | Once the contact checks pass, a post without a file is refused. The file record read is the one under the id's absolute value. |
| Downloads.Screen | includes/class-download-handler.php:60-86 | A submission the mobile, e-mail or file check refuses leaves the state as it was. |
| Downloads.Accept | includes/class-download-handler.php:104-114 | It succeeds exactly when the database takes the row. A failed insert changes nothing and gives the database message. |
| Downloads.SubmitAccepts | includes/class-download-handler.php:34-125 | A submission succeeds exactly when it passes every check and the insert succeeds. No check asks for a positive post id; the id is `intval` of the posted text. |
| Downloads.AcceptSucceeds | includes/class-download-handler.php:91-124 | On success, one row holding the submitted data is appended. The post's count rises by one and no other post changes. The token opens that post for 24 hours and no other token changes. The link carries token and post id. |
| Downloads.SubmitSuccess | includes/class-download-handler.php:88-124 | The same, for the form handler as a whole. The row is dated with the site's local time; the token expires 24 hours after the Unix time. |
| Downloads.SubmittedRowRetention | includes/class-download-handler.php:97 | The new row, dated with the site's local time, survives a cleanup exactly when that time is at or after the database's time less the period. |
| Downloads.SubmitKeepsValid | includes/class-download-handler.php:34-125 | A submission keeps ids positive, records well formed and request ids distinct. |
| Downloads.ProcessDownload | includes/class-download-handler.php:130-195 | A link is returned only for a sent token that is live in the store. The link carries that token. |
| Downloads.ProcessRejectsInOrder | includes/class-download-handler.php:133-179 | Refusals come in order: token absent, token empty, token unknown or expired, no file. A live token for a post with a file gives that post's link. |
| Downloads.Serve | includes/class-download-handler.php:200-230 | Only a request with `wprl_download=1` is handled. A file is delivered only for a positive post id with a file and a live token stored for that post. The post id is `intval` of the link's text, exponent and fraction included. |
| Downloads.ServeRejectsInOrder | includes/class-download-handler.php:203-230 | Refusals come in order: parameters missing, non-positive id or empty token, token unknown or expired, token for another post, no file. The id compared is `intval` of the link's text. |
| Downloads.GrantedLinkServes | includes/class-download-handler.php:214-270 | A link with a live token for a post with a file passes every check. |
| Downloads.LapsedLinkRefused | includes/class-download-handler.php:214-219 | A link whose token is gone or expired is refused as expired. |
| Downloads.IssuedLinkLifetime | includes/class-download-handler.php:376-382 | For a positive post id, the link a successful submission hands out opens the file for the next 24 hours and is refused after that. Downloads.NegativePostIdLinkRefused covers negative ids. |
| Downloads.ProcessedLinkServes | includes/class-download-handler.php:183-194 | For a token granted to a positive post id, the link returned passes every token and post check of redemption. |
| Downloads.ProcessedNegativeLinkRefused | includes/class-download-handler.php:183-194 | For a token granted to a negative post id, a link is still returned, because the file is found under the id's absolute value. Redemption refuses that link as invalid. |
| Downloads.NegativeLinkRefused | includes/class-download-handler.php:207-212 | A link that names a negative post id is refused as invalid before its token is looked at. |
| Downloads.NegativePostIdLinkRefused | includes/class-download-handler.php:46-124 | As written, a form posting the negative of a post id with a file is accepted. It stores the negative id in the new row, counts a download of the post, and hands out a link that redemption refuses. |
| Downloads.SubmitGuarded | includes/class-download-handler.php:302-308 | Corrected handler: a complete form whose post id is not positive is refused as a bad post, and a refusal changes nothing. |
| Downloads.GuardedMatchesWritten | includes/class-download-handler.php:34-125 | On a positive post id, the corrected handler is the written one. |
| Downloads.GuardedLinkLifetime | includes/class-download-handler.php:376-382 | With the correction, every link a submission hands out opens the file for the next 24 hours and is refused after that, for every post id. |
| Downloads.LinkWorksTwice | includes/class-download-handler.php:200-273 | As written, redeeming a link leaves its token in place, so the same link is delivered again. |
| Downloads.RedeemOnce | includes/class-download-handler.php:181 | Corrected redemption: the same verdict, with the token removed once the file is handed out, and nothing changed otherwise. |
| Downloads.RedeemOnceIsSingleUse | includes/class-download-handler.php:181 | With the correction, a second use of a redeemed link is refused as expired. |
| Downloads.DirectMobile | includes/class-download-handler.php:324-330 | The stored mobile is `billing_phone` if set, else `phone` if set, else `Not provided`; it is never empty. |
| Downloads.DirectDownload | includes/class-download-handler.php:279-363 | A logged-out visitor is refused before the nonce is checked. A refusal changes nothing. |
| Downloads.DirectRejectsBadPost | includes/class-download-handler.php:300-308 | A post id that is not positive is refused. |
| Downloads.DirectSuccessRecordsUser | includes/class-download-handler.php:320-356 | A direct download stores one row with the user's name and a non-empty mobile, and issues a token for the post. |
| Downloads.DirectKeepsValid | includes/class-download-handler.php:279-363 | A direct download keeps the state well formed. |
| Downloads.DisabledPhoneBlocksSubmission | includes/class-download-handler.php:38-44 | As written, a form without a mobile number is always refused, even when the settings switched the phone field off. |
| Downloads.SubmitPerSettings | includes/class-download-handler.php:38-58 | Corrected handler, which asks the settings which fields are required. A refusal changes nothing. |
| Downloads.SubmitRequiring | includes/class-download-handler.php:38-58 | The corrected handler once the required fields are known. A refusal changes nothing. |
| Downloads.RequiringKeepsValid | includes/class-download-handler.php:34-125 | Whatever fields are required, the corrected handler keeps the state well formed. |
| Downloads.NameAndMobileMatchWritten | includes/class-download-handler.php:38-58 | Requiring exactly name and mobile is the written handler, on every complete submission. |
| Downloads.DisabledPhoneAccepted | includes/class-download-handler.php:38-58 | Under the corrected handler, such a form goes through once its other fields are in order. |
| Downloads.PerSettingsKeepsValid | includes/class-download-handler.php:34-125 | The corrected handler keeps the state well formed. |
| Downloads.PerSettingsMatchesWritten | includes/class-download-handler.php:52-58 | When the settings require exactly name and mobile, the corrected handler behaves like the written one on every complete submission. |
| Downloads.PerSettingsMatchesDefaults | includes/class-settings.php:32-45 | The default settings are such settings, so with nothing saved the two handlers agree. |
| Database.Insert | includes/class-database.php:192-224 | A failed insert changes nothing and gives no id. Otherwise the row is appended under the next id and that id is returned. |
| Database.InsertKeepsValid | includes/class-database.php:206-223 | Inserting keeps ids distinct and below the counter. |
| Database.EscLike | includes/class-database.php:251 | Escaping never shortens the text. |
| Database.EscLikeRoundTrip | includes/class-database.php:251 | The search text can be read back from its escaped form. |
| Database.EscLikeGuardsWildcards | includes/class-database.php:251 | Every `_` and `%` in the escaped text is preceded by a backslash. |
| Database.NormalizeArgsReads | includes/class-database.php:244 | An argument reads the caller's value when given and the default otherwise. |
| Database.NormalizeArgs | includes/class-database.php:250-279 | Page size and page are at least 1, and the offset is (page − 1) × page size, never negative. The column is whitelisted, the direction is ASC or DESC, and there are zero or three search parameters. |
| Database.OrderbyWhitelist | includes/class-database.php:261-262 | The order column is the requested one exactly when it is one of the four allowed; otherwise it is `download_date`. |
| Database.OrderDirection | includes/class-database.php:263 | The direction is ascending exactly when the argument upper-cases to `ASC`. |
| Database.SearchParams | includes/class-database.php:250-256 | A non-empty search gives three identical `%`-wrapped escaped terms; an empty one gives none. |
| Database.ListDefaultsApply | includes/class-database.php:235-244 | With no arguments: no search, `download_date` descending, page 1 of 20, with posts. |
| Database.PageCount | includes/class-database.php:280 | The page count is the ceiling of total over page size. |
| Database.GetDownloadRequests | includes/class-database.php:233-307 | A page holds at most the page size. The total counts every matched row. |
| Database.ListingIsPage | includes/class-database.php:276-298 | The listed rows are the page the page number names, and a page past the last one is empty. |
| Database.PagesCoverAll | includes/class-database.php:276-298 | Reading pages 1 to the page count lists every matched row once, in order. |
| Database.DeleteDownloadRequest | includes/class-database.php:316-325 | Success exactly when a row went; a failed query changes nothing. |
| Database.DeleteOneSucceedsIffPresent | includes/class-database.php:316-325 | Deleting reports success exactly when a row with that id existed. |
| Database.DeleteDownloadRequests | includes/class-database.php:334-349 | An empty list or a failed query removes nothing and returns 0. Otherwise the count returned is the number of rows removed, never negative. |
| Database.DeleteManyKeeps | includes/class-database.php:341-346 | A row survives a bulk delete exactly when its id is not among the integer-converted ids. |
| Database.CleanupDownloadRequests | includes/class-database.php:358-380 | A failure removes nothing and reports 0. Otherwise the count is the number removed and every remaining row is at or after the cutoff, the database's `NOW()` less the period. |
| Database.CleanupErrorLogs | includes/class-database.php:462-473 | The same for the error-log table. |
| Database.CleanupKeepsRecent | includes/class-database.php:361-379 | Cleanup removes exactly the rows dated before now minus the retention period, in both tables. |
| Database.RunFullCleanup | includes/class-database.php:489-497 | The report always has the two keys, requests first. |
| Database.FullCleanupDefaults | includes/class-database.php:483-488 | Without options, a year of requests and thirty days of logs are kept. |
| Database.FullCleanupOverride | includes/class-database.php:483-495 | For any options with distinct keys, the request table is cleaned with `download_requests_days` when given and 365 days otherwise, and the log table with `error_logs_days` when given and 30 days otherwise. |
| Database.FullCleanupBothOptions | includes/class-main.php:98-103 | The daily job's call, with both periods given, cleans each table with its own period. |

## Left out

- WordPress services are parameters, not models: nonces, `sanitize_text_field`, `sanitize_email`, `sanitize_title_for_query`, `wp_unslash`, `is_email`, `wp_generate_password`, `get_user_ip` and `current_time`. Their internals are outside the plugin.
- The URL branch of `get_simplified_file_type` (`filter_var` and `pathinfo`) is an optional extension parameter. PHP's URL grammar is not part of this model.
- SQL evaluation is not modelled. The rows a `WHERE`/`ORDER BY` selects arrive as a sequence, and the `LEFT JOIN` with post titles (`include_posts`) only sets a flag.
- File streaming, HTTP headers, redirects and `exit` in `handle_download_request` become the `Stream` and `Redirect` outcomes. The bytes sent are not modelled.
- Transient storage is a map with an expiry second. WordPress's lazy deletion of expired transients is not modelled, since an expired token reads as absent either way.
- Error-log writes (`Utils::log_error`) are not modelled; they have no effect on any reply.
- `get_cached_file_types`' hourly cache key, the transient it writes, and the `arsort` ordering are left out. The counts are modelled as a map, which has no order.
- HTML markup, translation and escaping are not modelled. Rendered fields are records of their attributes, and messages are the untranslated English strings.
- Array-valued `$_GET`/`$_POST` parameters are not modelled; every request parameter is a string or absent.
- The CSS error-class toggling in the browser script is left out; it affects display only.
- PhpValue.IntVal: PHP reads a fraction or an exponent as a float and then truncates it. The model computes the exact decimal value and truncates that. Float rounding of more than 15 significant digits, infinities and saturation at the 64-bit limits are left out.
- Settings.GetSettingsLookup: a stored field that is not an array is read as an empty array. `wp_parse_args` would parse a string as a query string. Only an option written by something other than the settings form can hold such a field, since sanitising always stores arrays.
- Settings.GetSettings: the same reading of a stored field that is not an array.
- Downloads.IssuedLinkLifetime: stated for positive post ids only. Negative ids are the third finding below, covered by Downloads.NegativePostIdLinkRefused.
- Downloads.ProcessedLinkServes: stated for tokens granted to positive post ids only. Negative grants are covered by Downloads.ProcessedNegativeLinkRefused.
- Database.CleanupDownloadRequests: the cutoff is `now − days × 86400` seconds. MySQL's calendar `DATE_SUB` across daylight-saving changes is not modelled.
- Database.RunFullCleanup: each period is read with `intval`. PHP passes it to an `int $days` parameter instead, which throws a `TypeError` for a null, an array or a non-numeric string and deletes nothing. The model cleans up with the `intval` of such a value (0 days for those) instead. The plugin's only call passes integers.
- FileTypes.CountFileTypes: only string types are counted. An integer stored as a type would also become an array key in PHP; that case is left out.
- Downloads.HandleDownloadRequest has no row of its own. It is `Serve` plus the unchanged state, and its meaning is stated by Downloads.LinkWorksTwice.
- The admin screens, CSV export, post-type registration, templates, bootstrap and the admin and settings scripts are not part of this model.

## Findings

| source | as written | input that shows it | evidently intended | confidence | as-written member | corrected member |
|---|---|---|---|---|---|---|
| includes/class-download-handler.php:181 | The comment says the token is deleted when the link is redeemed, but `handle_download_request` never deletes it. | Any link that was delivered once, requested again within 24 hours, is delivered again. | A link opens the file once; the second use is refused. | not executed | Downloads.LinkWorksTwice | Downloads.RedeemOnceIsSingleUse |
| includes/class-download-handler.php:38-58 | The server always requires `user_mobile` and a non-empty name and mobile, ignoring the field settings. | Settings with the phone field disabled: the browser posts no mobile number and every submission is refused with "Required fields are missing." | The server requires exactly the fields the settings mark required. | not executed | FormValidation.PhoneOffFormRefused | Downloads.DisabledPhoneAccepted |
| includes/class-download-handler.php:46-86 | `submit_download_form` has no check that the post id is positive. WordPress reads post meta under the id's absolute value. | A post 5 with a file and a form posting `post_id=-5`: the form is accepted, the row stores -5, post 5's count goes up, and the link it returns is refused as invalid. | Refuse a post id that is not positive, as `direct_download_for_logged_users` does. | not executed | Downloads.NegativePostIdLinkRefused | Downloads.GuardedLinkLifetime |
