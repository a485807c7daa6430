# Hostel app profile screens: a Dafny model

This project models the decision logic of three screens of a React Native hostel-management app. It leaves out their rendering, storage and networking.

- **Edit profile** (`app/editprofile.tsx`):
  - the form loaded from the cached student;
  - the `hasChanges` test;
  - the JPEG/PNG gate of `pickImage`;
  - `compressImageToWebP`, which re-encodes a picked image as WebP at falling quality until it fits 50 KB;
  - `validateForm`, with its ten-digit mobile pattern and its email pattern;
  - `handleSubmit`: its early exits, the optional image upload and the merged `PUT` payload.
- **Hostel details** (`app/hostel-details.tsx`): `getFloor`, `getHostelType` and the assigned/pending status card.
- **Profile info** (`app/profile-info.tsx`): `capitalizeFirst`, the `'N/A'` fallbacks, the `+91` mobile prefix, the unverified-email badge and the gender label and icon.

Files:

- `optional.dfy`: the `Option` type.
- `text.dfy`: the pieces of JavaScript string and regular-expression semantics the screens use (`\d` and `\s` in the regular expressions, ASCII `toUpperCase`), and a first-occurrence search the email rule is stated with.
- `student.dfy`: the shared `Student` record and JavaScript truthiness of optional strings.
- `compression.dfy`: the compression loop with quality counted in integer hundredths, and the loop written as a method.
- `float_quality.dfy`: the same loop's quality variable as IEEE 754 binary64 arithmetic actually evaluates it.
- `editprofile.dfy`, `hostel_details.dfy`, `profile_info.dfy`: the three screens.

External effects are parameters:

- The image encoder and size read (`manipulateAsync` followed by `fetch(uri).blob()`) are one function from (location, quality) to an optional encoding. `None` stands for a call that throws.
- The image host's and the student API's JSON replies are functions of the request.
- Requests sent are returned as a list, so the contracts can say which calls happen.

The fallback of `compressImageToWebP`, taken when no attempt fits the budget, returns the last WebP file under the picked image's original `mimeType` (JPEG or PNG). The function's name and its caller's comment (app/editprofile.tsx:124) say the image is converted to WebP, but that path keeps the input's type label. The model states this behaviour as written; see `ImageCompression.FallbackKeepsInputType`.

## Model

| member | source | states |
|---|---|---|
| ImageCompression.CompressFrom | app/editprofile.tsx:142-173 | The recursive definition of the loop from a given quality and image location, which the compression lemmas are stated in. No encoder call happens iff the quality is at the floor; otherwise the first call encodes the current location at the current quality. |
| ImageCompression.Compress | app/editprofile.tsx:137-174 | The definition of the whole loop, which the compression lemmas and `EditProfile.PickImage` are stated in. It always makes a first call, on the picked image at quality 60. |
| ImageCompression.AttemptsAreBounded | app/editprofile.tsx:138-142 | The qualities tried are 60, 55, ... hundredths, 5 apart and all above 5. So there are between 1 and 11 encoder calls. |
| ImageCompression.StopsAtFirstFit | app/editprofile.tsx:153-163 | Every attempt before the last succeeded but exceeded 51200 bytes. An attempt within the budget is always the last one. |
| ImageCompression.AttemptsChain | app/editprofile.tsx:143-150 | The first attempt reads the picked image. Each later attempt reads the file the previous one wrote. Every recorded reply is the encoder's answer for that input. |
| ImageCompression.SuccessIsWebp | app/editprofile.tsx:157-163 | On success the result is the input asset with the fitting attempt's uri and `image/webp`. Every other field is unchanged. |
| ImageCompression.FallbackKeepsInputType | app/editprofile.tsx:165-173 | When nothing fits, all 11 qualities are tried and no error is raised. The result is the last output under the input's own mimeType. |
| ImageCompression.FailureStopsLoop | app/editprofile.tsx:143-154 | A throwing encoder call is the last call, and the loop then returns no asset. |
| ImageCompression.QualitiesFrom | app/editprofile.tsx:142-165 | From any quality, attempt i uses that quality minus 5i, and every attempt lies above the floor. |
| ImageCompression.ChainFrom | app/editprofile.tsx:143-169 | From any point of the loop, attempts are real encoder calls chained through the previous output. |
| ImageCompression.OutcomeFrom | app/editprofile.tsx:142-173 | The last attempt decides the result: failure gives none, a fit gives WebP, and reaching the floor gives the last file. |
| ImageCompression.CompressImageToWebP | app/editprofile.tsx:137-174 | The imperative loop returns exactly what the recursive definition does: at most 11 attempts, and the input asset with only uri and mimeType changed. |
| ImageCompression.Fits | app/editprofile.tsx:155-157 | `size / 1024 <= 50` holds exactly when the size is at most 51200 bytes. |
| EditProfile.LoadScreen | app/editprofile.tsx:64-77 | Missing strings load as empty and a falsy picture as null. The original values are the loaded form values, so the loaded form has no changes and no errors. |
| EditProfile.HasChanges | app/editprofile.tsx:95-101 | The definition the submit guard and the load and save contracts are stated in. Nothing has changed exactly when the form holds the original mobile number and email and no pending image; the picture URL is not compared. |
| EditProfile.EmailShapeMatchesPattern | app/editprofile.tsx:181 | A readable rule accepts exactly the strings the email regular expression accepts. The rule is: no whitespace, one `@` after a non-empty local part, and a dot inside the domain. |
| EditProfile.ValidateForm | app/editprofile.tsx:176-186 | The mobile error is absent iff the number is ten ASCII digits. The email error is absent iff the email is empty or matches the pattern. The image error is cleared. |
| EditProfile.FormValidIff | app/editprofile.tsx:176-186 | The form is valid iff both field checks pass. |
| EditProfile.PickImage | app/editprofile.tsx:102-135 | A denied permission, a cancelled pick or an empty pick leaves the screen unchanged and calls no encoder. Any type other than JPEG or PNG sets the image error, calls no encoder and changes nothing else. An accepted asset is compressed and records exactly the compression's encoder calls. A compressed result becomes the pending image and clears the image error; a failed compression sets the processing error and changes nothing else. |
| EditProfile.AcceptedPickOutcome | app/editprofile.tsx:123-133 | An accepted pick either leaves a pending image, which counts as a change, or leaves the form as it was with the processing error. |
| EditProfile.UpdatePayload | app/editprofile.tsx:229-234 | The payload sets the mobile number and the picture. An empty form email keeps the stored email. Every other student field is kept. |
| EditProfile.HandleSubmit | app/editprofile.tsx:188-265 | With no changes, or an invalid form, no request is sent and the form is unchanged. A request is sent iff both guards pass, and then the errors are cleared and the requests are exactly one upload for a pending image followed by one PUT unless the upload failed. A pending image is uploaded first; a failed upload sends no PUT. Every PUT goes to the student's roll number with the merged payload and the uploaded or kept picture. A save caches exactly that payload, clears the pending image and makes the sent values the original ones. A failure leaves student, form and original untouched. |
| EditProfile.SubmitValidated | app/editprofile.tsx:200-265 | After the guards: the requests are exactly one upload for a pending image, then one PUT unless that upload failed. A failed upload ends with its error and no PUT. Otherwise the last request is the PUT of the merged payload. The result is a save iff the server answers 200 with success, else the server's error text or the default one. |
| EditProfile.SendUpdate | app/editprofile.tsx:228-265 | The PUT carries the merged payload for the student's roll number. A 200 with success caches the payload and resets the original values; anything else keeps the screen and reports the error. |
| EditProfile.ClearedEmailKeepsStoredEmail | app/editprofile.tsx:232 | A submitted `PUT` never clears the stored email when the email field is empty. |
| StudentRecord.OrElseIsFallbackIff | app/profile-info.tsx:119 | `s \|\| fallback` shows the fallback iff `s` is falsy or is the fallback text itself. |
| Text.AllDigitsMeansEveryDigit | app/editprofile.tsx:178 | The left-to-right digit scan agrees with "every character is a digit". |
| HostelDetails.GetFloor | app/hostel-details.tsx:81-86 | "N/A" iff the room number is missing or empty, or its first character is not a digit. "Ground Floor" iff the first character is '1'. Otherwise the decimal of the digit minus one, followed by "th Floor". |
| HostelDetails.FloorReadsOnlyFirstCharacter | app/hostel-details.tsx:83-85 | Room numbers with the same first character get the same label. |
| HostelDetails.FloorLabelIdentifiesDigit | app/hostel-details.tsx:83-85 | Different leading digits get different labels. |
| HostelDetails.GetHostelType | app/hostel-details.tsx:88-92 | "N/A" for a missing or empty hostel number, otherwise "Hostel Block " and the number verbatim. |
| HostelDetails.HostelTypeRoundTrip | app/hostel-details.tsx:88-92 | The hostel number can be read back from its label. |
| HostelDetails.Status | app/hostel-details.tsx:175-191 | "Accommodation Assigned" iff hostel and room numbers are both non-empty. Exactly one of the two descriptions shows, and it agrees with the title, the icon and the colour. The pending description is the fixed text. |
| ProfileInfo.CapitalizeFirst | app/profile-info.tsx:80 | Empty iff the string is missing or empty. Otherwise it has the same length, an upper-cased first character and the rest unchanged. |
| ProfileInfo.CapitalizeFirstIdempotent | app/profile-info.tsx:80 | Capitalizing twice is capitalizing once. |
| ProfileInfo.MobileText | app/profile-info.tsx:126 | "N/A" for a missing or empty number, otherwise "+91" followed by the number. |
| ProfileInfo.MobileTextRoundTrip | app/profile-info.tsx:126 | The number can be read back from its display, and "N/A" reads back as none. |
| ProfileInfo.View | app/profile-info.tsx:119-147 | Name and email show the value or "N/A". The badge shows iff an email is present and not verified. The icon is `user-x` iff the gender is exactly "female". The gender label is the capitalized gender or "N/A". |
| ProfileInfo.GenderIconIsCaseSensitive | app/profile-info.tsx:144-147 | "female" and "Female" both display as "Female" but get different icons. |
| FloatQuality.LiteralsAreNearest | app/editprofile.tsx:138-142 | The modelled doubles of 0.6 and 0.05 are normal and lie within half a spacing of the decimal literals. |
| FloatQuality.SubtractionIsDeterministic | app/editprofile.tsx:165 | `quality -= 0.05` rounded to nearest has a single result. |
| FloatQuality.SubtractsThrough | app/editprofile.tsx:165 | Given the binade and the quotient and remainder by its spacing, the rounded difference is the one computed. |
| FloatQuality.SourceLoopIsDeterministic | app/editprofile.tsx:138-142 | Two runs of the loop's quality sequence are the same run. |
| FloatQuality.TableEntry | app/editprofile.tsx:138-165 | Each of the 12 listed doubles is above 0.05 and within 0.0001 of its intended hundredths. Each subtracts to the next entry, and the last to 2^-56. |
| FloatQuality.TableIsSourceLoop | app/editprofile.tsx:138-165 | The listed doubles form a run of the loop. |
| FloatQuality.SourceLoopIsTheTable | app/editprofile.tsx:138-165 | Every run of the loop is the listed run. |
| FloatQuality.SourceLoopMakesTwelveAttempts | app/editprofile.tsx:138-165 | As evaluated in doubles, the loop has exactly one run, the listed one. That run tries 12 qualities, not 11. The twelfth is 0.05000000000000002, which is the floor 5 in hundredths. |

## Left out

- Storage, the network and JSON. Reading and writing the cached student and fetching the student record are left out. A transport exception or unparsable JSON in the upload or `PUT` is also left out; the server replies are given as already-parsed values.
- React runtime: state hooks, async sequencing, the loading, refreshing and submitting flags, `Alert` dialogs and router navigation. Results that the screens show in an alert are returned as values instead.
- The media-library permission request and the picker dialog. They appear only as their three possible answers.
- Image resizing and WebP encoding: an oracle, as described above.
- `toLocaleDateString` for the member-since date (app/profile-info.tsx:155): it depends on the locale.
- `ProfileInfo.CapitalizeFirst` upper-cases ASCII letters only. JavaScript's `toUpperCase` maps all of Unicode, including characters that expand to two.
- `HostelDetails.GetFloor`: `parseInt` of a single character accepts exactly the ten ASCII digits, which is what the model reads. Longer strings are never parsed.
- `ImageCompression.Fits` compares integer bytes. The source compares `size / 1024` as a double, which is exact for every size below 2^53 bytes.
- `ImageCompression.AttemptsAreBounded` counts quality in exact hundredths, as the loop evidently intends, so it promises at most 11 encoder calls where the double arithmetic of the source makes 12; `FloatQuality` models that arithmetic, see Findings.
- `ImageCompression.FallbackKeepsInputType` counts quality in exact hundredths, as the loop evidently intends, so it promises exactly 11 encoder calls on the fallback path where the double arithmetic of the source makes 12; see Findings.
- `ImageCompression.CompressImageToWebP` counts quality in exact hundredths, as the loop evidently intends, so it promises at most 11 encoder calls where the double arithmetic of the source makes 12; see Findings.

## Findings

| source | as written | input that shows it | evidently intended | confidence | as-written member | corrected member |
|---|---|---|---|---|---|---|
| app/editprofile.tsx:138-165 | `quality` starts at the double 0.6 and loses 0.05 per round while `quality > 0.05`. Rounding leaves the twelfth value at 0.05000000000000002, which passes the test, so the encoder runs at quality ~0.05. | Any image whose WebP encodings all exceed 50 KB: 12 encoder calls, the last at quality 0.05000000000000002. | Qualities 0.6 down to 0.1, eleven attempts, none at the 0.05 floor. | medium, not executed | FloatQuality.SourceLoopMakesTwelveAttempts | ImageCompression.AttemptsAreBounded |
