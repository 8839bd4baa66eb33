# Evidence intake and exhibit numbers

A Dafny model of the evidence-intake core of the forensics unit's evidence
log (`npf_nccc_edb/pages/3_home.py`). It covers four parts:

- **Exhibit-number generator** (`exhibit.dfy`, module `Exhibit`). It maps the
  device type to a short code through a table whose default is `OTH`. It takes
  the month and two-digit year of a clock reading and the capitalised first
  letters of the handler's first and last name, and lays them out as
  `NCCC/<code>/<MMYY>/<initials>/<device id>`. It fails when either name is
  empty.
- **Intake gate and field shaping** (`intake.dfy`, module `Intake`).
  - Reference number, device type and investigator name must be non-empty.
  - The custom device type is kept only for type "Other".
  - The release contact and release date are present only for status
    Released.
- **Atomic intake** (`store.dfy`, module `Store`). Class `EvidenceDb` holds:
  - the devices and requests tables as the intake's connection sees them;
  - the same tables as every other reader sees them (committed);
  - the device_id sequence.

  `Submit` runs the page's submit handler step by step:
  1. the gate;
  2. read the uploaded front and back images;
  3. insert the device (this draws its id);
  4. generate the exhibit number from that id;
  5. update the device row;
  6. insert the request;
  7. commit.

  Any step after the gate that raises leads to a rollback. Its contract says
  that either all three writes are published or none is. A commit that raises
  after the server has committed publishes all three while the page reports
  a failure; `Submit` states that case too (`Store.FailureScenario`).
- **Search filter** (`search.dfy`, module `Search`). An empty term keeps every
  joined row. Otherwise a row is kept when the lowercased term is a substring
  of its lowercased reference number, exhibit number or investigator name. The
  filter keeps the rows in their order.

Supporting modules: `Wrappers` (Option, Result) and `Text`. `Text` provides
ASCII case mapping, the decimal rendering of an id with its parser, and literal
substring search with its positional definition.

Inputs the source reads from its environment are parameters in the model:
- `firstName` and `lastName` are the logged-in user's names, which the page
  looks up in the users table.
- `now` is the clock reading the generator takes.
- `releaseStamp` is the clock reading taken when the release inputs are shown.
- `fault` says which statement, if any, raises for reasons outside the model:
  a lost connection, or a column constraint the model does not track. For the
  device insert it also says whether the id was drawn before the statement
  failed; for the commit, whether the server committed before the error
  reached the page.

`ParseExhibitNumber` is not in the source. It is the inverse of the layout, and
the model uses it to state that the layout is unambiguous.

Where the intended design differs from the code, the model follows the code:
- The code does not check that the custom device type is filled in for
  "Other".
- The code does not check that the release contacts are filled in for
  Released. An empty entry is stored as an empty string
  (`Intake.ShapingAcceptsEmptyConditionalFields`, and the second intake in
  `Store.IntakeScenario`).
- The organisation tag is the literal `NCCC`.
- The page shows a single message for any missing required field; it does not
  name the first missing one.
- An UPDATE of a device id that does not exist changes no row and raises
  nothing. It is not a not-found error.
- The result of a successful intake carries the fresh id and its number; the
  page itself shows a fixed success message (line 177).
- The month/year token comes from the clock at generation time, not from the
  entered date of use.

## Model

| member | source | states |
|---|---|---|
| `Exhibit.DeviceCode` | npf_nccc_edb/pages/3_home.py:189-203 | The code is always one of the table's codes, is 1 to 3 characters with no '/', and is "OTH" for any type not in the table |
| `Exhibit.DeviceCodeTable` | npf_nccc_edb/pages/3_home.py:189-196 | The code is "OTH" exactly for "Other" and for unrecognised types; distinct known types other than "Other" get distinct codes |
| `Exhibit.TwoDigits` | npf_nccc_edb/pages/3_home.py:200 | A number below 100 becomes exactly two decimal digits, zero padded, which read back as the number |
| `Exhibit.MonthYearToken` | npf_nccc_edb/pages/3_home.py:199-200 | The %m%y token is 4 digits; the first two read back as the month and the last two as the year modulo 100 |
| `Exhibit.MonthYearTokenDecides` | npf_nccc_edb/pages/3_home.py:200 | Two clock readings give the same token if and only if they agree on the month and on the year modulo 100 |
| `Exhibit.Initials` | npf_nccc_edb/pages/3_home.py:206 | Succeeds if and only if both names are non-empty; the initials are then exactly two characters, the capitalised first character of each name |
| `Exhibit.GenerateExhibitNumber` | npf_nccc_edb/pages/3_home.py:187-211 | Succeeds if and only if both names are non-empty; the only failure is the empty-name error |
| `Exhibit.ExhibitNumberRoundTrip` | npf_nccc_edb/pages/3_home.py:209 | Every generated number reads back as the device code, the MMYY token, the initials and the device id it was made from |
| `Exhibit.ExhibitNumberInjective` | npf_nccc_edb/pages/3_home.py:209 | Two generations that yield the same string were made for the same device id, code, month/year and initials |
| `Exhibit.ExhibitNumberInputs` | npf_nccc_edb/pages/3_home.py:199-209 | The number depends on the clock only through month and two-digit year and on the names only through their capitalised first characters; there is no other hidden input |
| `Text.NatToString` | npf_nccc_edb/pages/3_home.py:209 | str(device_id) is a non-empty string of decimal digits without a leading zero |
| `Text.ParseNatToString` | npf_nccc_edb/pages/3_home.py:209 | Reading the decimal rendering of an id back gives the id |
| `Text.NatToStringInjective` | npf_nccc_edb/pages/3_home.py:209 | Distinct ids have distinct decimal renderings |
| `Text.UpperChar` | npf_nccc_edb/pages/3_home.py:206 | A lowercase ASCII letter becomes the uppercase letter 32 code points below it; every other character is left as it is; the result is never a lowercase letter |
| `Text.Lower` | npf_nccc_edb/pages/3_home.py:289-293 | The result has the length of the input, and each character is the input's character with an uppercase ASCII letter mapped to its lowercase letter |
| `Text.LowerIdempotent` | npf_nccc_edb/pages/3_home.py:289-293 | Lowercasing an already lowercased string changes nothing |
| `Text.Contains` | npf_nccc_edb/pages/3_home.py:291-293 | Every text contains its own prefixes, the empty term included, and never a term longer than itself |
| `Text.ContainsIff` | npf_nccc_edb/pages/3_home.py:291-293 | The substring test holds if and only if the term occurs at some position of the text, in both directions |
| `Intake.RequiredFieldsPresent` | npf_nccc_edb/pages/3_home.py:139 | The gate passes if and only if the shaped device row has a non-empty reference number and device type and the shaped request a non-empty investigator name, whatever the release clock reads; no other field is looked at |
| `Intake.ShapeDevice` | npf_nccc_edb/pages/3_home.py:100-152 | The device row keeps a custom type only for type "Other", takes the typed custom type for "Other", has no exhibit number before the second write, and carries every other widget value unchanged |
| `Intake.ShapeRequest` | npf_nccc_edb/pages/3_home.py:128-134 | Release contact name, phone and date are present if and only if the status is Released; they are then the typed values and the clock reading taken when the inputs were shown; every other column is the widget value |
| `Intake.ShapingAcceptsEmptyConditionalFields` | npf_nccc_edb/pages/3_home.py:100-139 | The gate does not look at the custom type or the release contacts; a Released intake with empty release contacts is stored with empty contacts, and an "Other" intake with an empty custom type is stored with an empty custom type whatever its status |
| `Search.Matches` | npf_nccc_edb/pages/3_home.py:290-294 | A row matches a lowercased term if and only if the term occurs at some position of the lowercased reference number, of the lowercased exhibit number when there is one, or of the lowercased investigator name; the empty term matches every row |
| `Search.FilterRows` | npf_nccc_edb/pages/3_home.py:290-294 | The selection is no longer than its input and every row in it matches the term |
| `Search.SearchEvidence` | npf_nccc_edb/pages/3_home.py:288-294 | An empty term returns the rows unchanged; otherwise the result is a subsequence of the rows in their order, and every row in it matches the lowercased term |
| `Search.FilterIsSubsequence` | npf_nccc_edb/pages/3_home.py:290-294 | The filtered rows are a subsequence of the input, in the same order |
| `Search.FilterCount` | npf_nccc_edb/pages/3_home.py:290-294 | Each row occurs in the result as often as in the input when it matches, and not at all otherwise |
| `Search.FilterMembership` | npf_nccc_edb/pages/3_home.py:290-294 | A row is in the result if and only if it is in the input and matches on one of the three columns |
| `Search.EmptyTermKeepsAll` | npf_nccc_edb/pages/3_home.py:288 | An empty search returns the rows unchanged, and filtering by the empty term would keep every row too |
| `Search.SearchIgnoresTermCase` | npf_nccc_edb/pages/3_home.py:289 | Searching for a term and for its lowercase form gives the same rows |
| `Search.SearchResultsContainTerm` | npf_nccc_edb/pages/3_home.py:288-294 | For a non-empty term, an input row is returned if and only if the lowercased term occurs at some position of its lowercased reference number, exhibit number or investigator name |
| `Search.FilterIdempotent` | npf_nccc_edb/pages/3_home.py:290-294 | Filtering the result again with the same term changes nothing |
| `Store.GeneratedNumberIsOwn` | npf_nccc_edb/pages/3_home.py:152-163 | The exhibit number written in the second write reads back as the row's own device id and device-type code |
| `Store.IntakeKeepsConsistent` | npf_nccc_edb/pages/3_home.py:146-176 | Adding one intake's device and request under the freshly drawn id keeps the committed tables consistent: equal key sets, every device with its own exhibit number, the conditional-field rules |
| `Store.ExhibitNumbersUnique` | npf_nccc_edb/pages/3_home.py:152-163 | No two committed devices share an exhibit number |
| `Store.JoinOfConsistentData` | npf_nccc_edb/pages/3_home.py:261-274 | Over committed data the devices-requests join has one row per device, and every listed row carries an exhibit number generated for its own id |
| `Store.EvidenceDb.InsertDevice` | npf_nccc_edb/pages/3_home.py:146-152 | Takes the next sequence value as a fresh id and adds the row unless the statement raises; the value is drawn when the row is added, and when the statement raises only if it got as far as drawing; nothing else changes |
| `Store.EvidenceDb.UpdateExhibitNumber` | npf_nccc_edb/pages/3_home.py:158-163 | Sets the exhibit number of the row with that id if there is one; a missing id changes nothing and is not an error |
| `Store.EvidenceDb.InsertRequest` | npf_nccc_edb/pages/3_home.py:166-174 | Adds the request if and only if the statement does not raise, the device exists and it has no request yet |
| `Store.EvidenceDb.Commit` | npf_nccc_edb/pages/3_home.py:176 | Publishes the connection's tables, which must be consistent, unless the commit raises before the server committed; a commit that raises after it publishes them all the same |
| `Store.EvidenceDb.Rollback` | npf_nccc_edb/pages/3_home.py:179 | Discards the connection's writes; the committed tables and the sequence are unchanged |
| `Store.EvidenceDb.WriteRows` | npf_nccc_edb/pages/3_home.py:145-174 | The three writes in order. They draw one fresh id, unless the device insert fails before drawing it, and publish nothing. They fail exactly on an empty name or a raising statement. On success the connection's tables gain the shaped device with its generated number and the shaped request, both under that id |
| `Store.EvidenceDb.Submit` | npf_nccc_edb/pages/3_home.py:138-185 | All three writes or none: an incomplete form is refused with no writes; success exactly when the gate passes, both names are non-empty and nothing raises; the committed tables gain exactly the new device with the number generated from its fresh id and its request under that id when the gate passes, both names are non-empty and nothing raises before the server commits (a commit that raises afterwards is still reported as a failure); otherwise they are exactly as before; the sequence advances by one exactly when an id was drawn; consistency is kept |

## Left out

- Streamlit presentation is not modelled: the login check, navigation,
  `show_home`, widget rendering and the result display loop. Widget values are
  the fields of `Intake.Form`.
- `get_db_connection` and the users-table lookup are not modelled; the names
  are parameters. The "User information not found" path, and the page failing
  when no connection can be made, are therefore not modelled.
- `clear_form` is not modelled. It is never called and only touches session
  state.
- `generate_pdf` is not modelled. It is a PDF library call and a file write.
- Image uploads are opaque optional byte strings. A failing read is the
  `ImageReadFault` case; the file type filter is not modelled.
- `datetime.now()` is not modelled; both readings are parameters.
  `date_of_use` is a date in the source and a `DateTime` in the model.
- Failures of the database that do not follow from the model's own state are
  not derived: connection loss, and constraints of the tables the source does
  not show. The `fault` parameter selects them, including
  whether a failing device insert drew its id and whether a failing commit
  had already taken effect. Which of these happens is up to the server and
  the network; the model takes it as given.
- The widget's 150-character cap on the description (line 108) is not
  modelled; the model accepts a description of any length.
- Other sessions running intakes at the same time are not modelled. Their ids
  and rows would interleave; isolation is left to the database. `EvidenceDb`
  has one connection, so the sequence and the committed tables change only
  through it.
- The foreign key and the one-request-per-device key are modelled in
  `InsertRequest`.
- The device_id sequence is not rolled back. This follows PostgreSQL sequence
  semantics, so a failed intake after the device insert leaves a gap in the
  ids. `Submit` states this exactly.
- Closing the cursor and the connection is not modelled; it has no effect on
  the stored data.
- Text.Lower and Text.UpperChar map ASCII letters only. Python's `str.lower`
  and `str.upper` apply full Unicode case mapping, which can change a string's
  length.
- Exhibit.Initials: the two-character guarantee holds for the ASCII model. In
  Python, a first character such as 'ß' uppercases to two characters.
- Search.Matches: pandas `str.contains` treats the term as a regular
  expression, so `.` matches any character and a term such as `(` raises. The
  model matches literal substrings.
- Search.Matches: a NULL exhibit number matches nothing. pandas propagates a
  missing value through the mask, and the outcome is library-specific.
  Committed data never has a NULL exhibit number (`Store.JoinOfConsistentData`).
- Intake.JoinedRow is wider than the search query's result: it carries the
  whole device row, including the two images and the PIN/password/pattern,
  which the query at lines 262-266 does not select. The filter never reads
  those columns, so no search result changes.
- The order of the joined rows is whatever the database returns; the model
  takes it as given (`Store.IsJoinOf`).
- Extraction-status transitions after creation are not modelled. The source
  has no operation that changes a stored status.
- Sign-up, login and the landing page are not modelled: they are
  authentication and static content.
