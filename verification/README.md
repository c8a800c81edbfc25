# DataCare consultation core, in Dafny

DataCare estimates the risk of type 2 diabetes from a short clinical
intake. A Streamlit form (`front.py`) collects the patient's data and
comorbidities. It posts them to a Flask backend (`app.py`), which does
three things:
- it encodes the payload into the classifier's feature row;
- it asks the classifier for a probability;
- it renders a PDF consultation report.

This project models the deterministic parts of that pipeline as pure
Dafny functions and proves what they promise.

- `base.dfy` (`Base`): optional values, duplicate-freedom, and ordered
  association lists. These stand for the source's dictionary literals and
  their `get`.
- `text.dfy` (`Text`): the Python string operations the code relies on.
  - `isspace` and `isalnum` are exact on ASCII and Latin-1.
  - `strip` and `rstrip` are generic in the character class they remove.
  - `lower` is fixed to the Latin-1 case mapping.
  - Substring `in` is a decidable `Contains` with an existential
    specification.
- `catalogue.dfy` (`Catalogue`): the 73 classifier columns
  (`FEATURE_NAMES`) and the Portuguese label table (`EN_TO_PT`), with the
  source's values in the source's order. It also holds the label lookup
  `get(k, k)` over any table.
- `categories.dfy` (`Categories`): the form's comorbidity picker
  (`CATEGORIES`), as written and with the hepatic cancer key corrected
  (see Findings).
- `encoder.dfy` (`Encoder`): `build_X_from_input`.
  - It produces the feature row, the metadata with the BMI-absent rule,
    and the selected keys.
  - The sex normalisation is a closed two-valued code.
  - The JSON-string form of the comorbidity list is an opaque optional
    parse result.
  - `BuildRow` is the source's dictionary-filling loop, with its
    invariants.
- `intake.dfy` (`Intake`): `cm_para_metros`, `calcular_imc`,
  `classificar_imc` and `formatar_nome_arquivo`, the last with a
  read-back property of the file name.
- `selection.dfy` (`Selection`): the picker's list edits.
  - The search filter, the checkbox toggle and the custom entry.
  - The pill label lookup across categories.
- `report.dfy` (`Report`): `generate_pdf`, abstracted to the list of
  text-drawing commands it issues, each a `Draw(page, x, y, text)`.
  - The pagination is a recursive placement of bullets with a cursor.
  - The page height is a parameter. A4 is given exactly as a rational
    number of points.
  - The label table is a parameter; the backend passes `EN_TO_PT`.
- `consultation.dfy` (`Consultation`): the pieces composed. The form's
  payload is encoded by the backend, and the report is drawn from the
  encoding.

## Model

| member | source | states |
|---|---|---|
| Base.Lookup | app.py:212 | dictionary `get` on a literal: absent exactly when no pair has the key, otherwise the label of a pair with that key |
| Base.LookupAppend | front.py:477-480 | looking up in two tables joined looks in the first, then in the second |
| Text.IsSpace | app.py:230 | on Latin-1, a character is whitespace exactly when it is one of the twelve listed one by one (tab to carriage return, the four separators U+001C–U+001F, space, U+0085, U+00A0) |
| Text.LeadingCount | app.py:230 | the number of leading whitespace characters: all of them are whitespace and the next one is not |
| Text.TrailingCount | app.py:230 | the number of trailing whitespace characters: all of them are whitespace and the one before is not |
| Text.LStrip | app.py:230 | `lstrip` is a suffix of the input, only whitespace was removed, and it does not start with whitespace |
| Text.RStrip | front.py:202 | `rstrip` is a prefix of the input, only whitespace was removed, and it does not end with whitespace |
| Text.Strip | app.py:230 | `strip` is the slice after the leading whitespace, only whitespace lies on either side, and it neither starts nor ends with whitespace |
| Text.StripSpan | app.py:230 | the stripped text is exactly the span between the leading and trailing whitespace |
| Text.LeadingOfPadded | app.py:230 | whitespace in front of a text that does not start with whitespace is exactly the leading count |
| Text.TrailingOfPadded | front.py:202 | whitespace after a text that does not end with whitespace is exactly the trailing count |
| Text.LStripPadded | app.py:230 | `lstrip` removes exactly the whitespace put in front of such a text |
| Text.RStripPadded | front.py:202 | `rstrip` removes exactly the whitespace put after such a text |
| Text.RStripIgnoresTrailingSpace | front.py:202 | appending whitespace to any string does not change its `rstrip` |
| Text.StripPadded | app.py:230 | `strip` of whitespace plus a core plus whitespace is the core, when the core has no whitespace at either end |
| Text.StripSlice | app.py:230 | the same, stated for a slice of the input |
| Text.AlnumIsNotSpace | front.py:202 | no alphanumeric character is whitespace |
| Text.LetterIsNotSpace | app.py:230 | no ASCII letter is whitespace |
| Text.Lower | app.py:230 | `lower` keeps the length and maps each character by the Latin-1 case mapping |
| Text.LowerIdempotent | front.py:388 | lower-casing twice is lower-casing once |
| Text.AllAppend | front.py:202 | two all-whitespace strings joined are all whitespace |
| Text.Contains | front.py:388 | the substring test is true exactly when the needle occurs contiguously in the text |
| Catalogue.Translate | app.py:212 | `table.get(k, k)`: a key the table lacks is shown as itself; a key it has is shown with a label the table pairs with it |
| Catalogue.TranslateAll | app.py:212-213 | each label is `table.get(k, k)` of the key at the same position; the length is kept |
| Catalogue.TranslateAllCons | app.py:202-213 | translating a list translates its head, then its tail |
| Catalogue.LocalizeAll | app.py:239-243 | `selected_pt` has the length of `selected_en` and is `EN_TO_PT.get(k, k)` pointwise |
| Catalogue.Localize | app.py:243 | `EN_TO_PT.get(k, k)`: a key outside the label table stays itself; a key in it gets a label the table pairs with it |
| Catalogue.CatalogueShape | app.py:25-39 | there are 73 columns; age and sex are columns 0 and 1, and no later column has either name |
| Catalogue.EnToPtFollowsCatalogue | app.py:42-116 | `EN_TO_PT` has exactly the keys of `FEATURE_NAMES`, in the same order |
| Catalogue.LabelsAreNotKeys | app.py:42-116 | no Portuguese label is also a key of the table |
| Catalogue.LocalizeIdempotent | app.py:212-213 | the renderer's second lookup of an already-translated label returns it unchanged |
| Catalogue.LocalizeAllIdempotent | app.py:212-213 | the same, pointwise over a list |
| Categories.CardiovascularKeysAreFeatures | front.py:58-68 | every key of "Cardiovasculares" is a comorbidity column |
| Categories.NeurologicalKeysAreFeatures | front.py:69-79 | every key of "Neurológicas" is a comorbidity column |
| Categories.RespiratoryKeysAreFeatures | front.py:80-82 | every key of "Respiratórias / Pulmonares" is a comorbidity column |
| Categories.EndocrineKeysAreFeatures | front.py:83-91 | every key of "Endócrinas / Metabólicas" is a comorbidity column |
| Categories.RenalKeysAreFeatures | front.py:92-99 | every key of "Renais / Hepáticas", with the corrected hepatic cancer key, is a comorbidity column |
| Categories.HaematologicalKeysAreFeatures | front.py:100-108 | every key of "Hematológicas / Imunológicas" is a comorbidity column |
| Categories.AutoimmuneKeysAreFeatures | front.py:109-116 | every key of "Autoimunes / Inflamatórias" is a comorbidity column |
| Categories.OncologicalKeysAreFeatures | front.py:117-121 | every key of "Oncológicas" is a comorbidity column |
| Categories.GeneticKeysAreFeatures | front.py:122-128 | every key of "Genéticas / Congênitas" is a comorbidity column |
| Categories.OtherKeysAreFeatures | front.py:129-140 | every key of "Outras" is a comorbidity column |
| Categories.PickerKeysAreFeatures | front.py:57-141 | with the corrected spelling, every key the picker offers is a column other than age and sex |
| Categories.HepaticCancerSpellings | front.py:98 | the form's key "hepatic_cancer" is not a column; "hepatic cancer" is column 30 |
| Encoder.OrZero | app.py:250-251 | `float(x or 0)` on a number: an absent field reads as 0, a present one as its value |
| Encoder.Entries | app.py:232-237 | the list iterated is the client's list, or the parse of a non-empty string; a missing field, an empty string or a failed parse gives no entries; no entry is invented |
| Encoder.SexCode | app.py:230 | the sex code is always 1 or 2 |
| Encoder.SexCodeIsFemaleToken | app.py:230 | the code is 2 exactly when the field is "f", "feminino" or "female", in any letter case, with only whitespace around it |
| Encoder.SexCodeOfPaddedToken | app.py:230 | a female token in any letter case, with any whitespace around it, gives 2 |
| Encoder.PaddedTokenOfSexCode | app.py:230 | a code of 2 comes only from such a padded female token |
| Encoder.FemaleTokenEnds | app.py:230 | a female token in any letter case starts and ends with a non-whitespace character, so `strip` keeps it whole |
| Encoder.SexCodeOfBareToken | app.py:230 | a female token with no whitespace gives 2 |
| Encoder.TokensAreLowerCase | app.py:230 | the accepted tokens are already lower-case |
| Encoder.FemaleTokensGiveTwo | app.py:230 | each accepted token, written as is, gives 2 |
| Encoder.CapitalFGivesTwo | app.py:230 | the form's "F" gives 2 |
| Encoder.StripOfDefault | app.py:230 | the default "M" has nothing to strip |
| Encoder.LowerOfM | app.py:230 | "M" lower-cases to "m" |
| Encoder.NormalisedDefault | app.py:230 | the default "M" normalises to "m" |
| Encoder.SexCodeOfAbsentField | app.py:230 | an absent sex field gives 1 |
| Encoder.MaleExamples | app.py:230 | "M" and an absent field give 1 |
| Encoder.SelectKnown | app.py:239-241 | `selected_en` holds a key exactly when it is known and listed in the input; it is never longer than the input |
| Encoder.SelectKnownAppend | app.py:239-241 | the selection is built in input order: it splits along any split of the input |
| Encoder.SelectNothingKnown | app.py:239-241 | entries that are not known keys select nothing |
| Encoder.SelectTwoKnown | app.py:239-241 | two known keys are both selected, in input order |
| Encoder.SlotValue | app.py:245-247 | column "patient_age" reads the age, "patient_sex" the sex code, and any other column 1 exactly when it is selected and 0 otherwise |
| Encoder.SlotRow | app.py:246-248 | the row over a list of column names has one slot per name |
| Encoder.Row | app.py:245-248 | the row has the catalogue's length, with age in slot 0, the sex code in slot 1, and each later slot 1 exactly when its column is selected |
| Encoder.BuildRow | app.py:245-254 | the dictionary loop, with its `if feat not in row` guard, gives each column its age, sex or 0/1 value, in column order |
| Encoder.BuildCatalogueRow | app.py:245-254 | over the catalogue, the dictionary loop builds exactly `Row` |
| Encoder.BodyMassIndex | app.py:252 | the unrounded index times the height squared is the weight |
| Encoder.MetadataOf | app.py:250-261 | height and weight default to 0; the index is present exactly when the height is positive, and then it is weight over height squared |
| Encoder.Encode | app.py:227-262 | a row of catalogue length, with the age, the sex code and one flag per listed catalogue key; a key is selected exactly when it is a column and listed; the metadata is as above |
| Encoder.UnknownEntriesIgnored | app.py:239-248 | adding entries that are not catalogue keys changes neither the row, the selection nor the metadata |
| Encoder.SlotRowReadsMembership | app.py:246-248 | the row reads the selection only through membership |
| Encoder.RowDependsOnlyOnEntrySet | app.py:239-248 | reordering or duplicating entries leaves the row and the set of selected keys unchanged |
| Encoder.UnparseableIsEmpty | app.py:232-237 | a comorbidity string that fails to parse encodes exactly like an empty list, with nothing selected |
| Encoder.SahAndObesityColumns | app.py:25-39 | "SAH" and "obesity" are columns 2 and 51 of 73 |
| Encoder.SahAndObesityFlags | app.py:239-248 | listing "SAH" and "obesity" sets exactly those two flags and selects both, in order |
| Encoder.TwoComorbidityScenario | app.py:227-262 | a concrete payload, "F" with age 50, encodes to 50 and 2 in the first slots and exactly the two flags |
| Encoder.UnknownKeyScenario | app.py:239-248 | a payload whose only entry is an unknown key encodes like an empty list |
| Intake.CmToMetres | front.py:144-145 | metres times 100 is the centimetres; a positive length stays positive |
| Intake.CalcBmi | front.py:148-152 | the index is present exactly when the weight is non-zero and the height positive, and then it is the weight over the height in metres squared |
| Intake.ClassifyBmi | front.py:154-168 | the band is "" exactly for an absent or zero index |
| Intake.ClassifyByCutCount | front.py:157-168 | the band of a non-zero index is the label indexed by the number of cut points 18.5, 25, 30, 35, 40 at or below it |
| Intake.CutsBelowMonotone | front.py:157-168 | a larger index never has fewer cut points below it |
| Intake.CutsBelowHalfOpen | front.py:157-168 | with increasing cut points, band k is exactly the half-open interval from cut k-1 up to but excluding cut k |
| Intake.BmiCutsIncrease | front.py:157-165 | the cut points 18.5, 25, 30, 35, 40 of the if-chain increase strictly |
| Intake.BmiBandIntervals | front.py:154-168 | a non-zero index gets band k exactly when it lies in [cut k−1, cut k): below 18.5 "Baixo peso", [18.5, 25) "Eutrofia", and so on up to 40 and above "Obesidade III" |
| Intake.CutsBelowNone | front.py:157 | an index below the lowest cut is in band 0 |
| Intake.BandsAreOrdered | front.py:154-168 | every non-zero index gets exactly one of the six labels, and the band index is monotone |
| Intake.Keep | front.py:202 | the kept characters are exactly the alphanumerics, spaces, '-' and '_' of the input, in order |
| Intake.KeepAppend | front.py:202 | filtering characters splits along any split of the input |
| Intake.KeepAllKept | front.py:202 | a string of kept characters is kept whole |
| Intake.Underscored | front.py:203 | each space becomes '_' and every other character is unchanged |
| Intake.CleanName | front.py:201-203 | the cleaned name holds only alphanumerics, '-' and '_', and is never longer than the input |
| Intake.KeepOfSpace | front.py:202 | the kept characters of whitespace are whitespace |
| Intake.CleanNameIgnoresTrailingSpace | front.py:202-203 | trailing whitespace is stripped before the replacement, so it never becomes '_' |
| Intake.CleanNameHasNoSpace | front.py:202-203 | a cleaned name has no whitespace, and each of its characters is kept |
| Intake.CleanNameIdempotent | front.py:201-203 | cleaning a cleaned name changes nothing |
| Intake.CleanNameOfKeptName | front.py:202-203 | a name of kept characters that does not end in a space survives whole, each space turned into '_' |
| Intake.CleanNameDropsUnkept | front.py:202 | a character the filter rejects leaves no trace in the cleaned name, wherever it stands |
| Intake.KeepDropsUnkept | front.py:202 | the same for the kept characters before `rstrip` |
| Intake.Pad | front.py:206 | a zero-padded field has the given width and only decimal digits |
| Intake.PadRoundTrip | front.py:206 | reading a padded number back gives the number, below 10 to the width |
| Intake.DateStamp | front.py:206 | `%Y%m%d` has eight characters for a four-digit year |
| Intake.FileName | front.py:200-208 | the file name is the cleaned name plus 22 fixed characters |
| Intake.StampedNameSlices | front.py:208 | where the prefix, name, separator, date fields and suffix lie in a stamped name |
| Intake.StampedNameReadsBack | front.py:206-208 | a stamped name reads back to its name part, year, month and day |
| Intake.FileNameReadsBack | front.py:200-208 | the file name starts with "consulta_" and ends with ".pdf"; the cleaned name and the date read back from their positions |
| Selection.Matches | front.py:388 | an entry is shown exactly when the query is empty or, lower-cased, occurs in its lower-cased label or key |
| Selection.Filter | front.py:386-389 | a filtered list is never longer than the list |
| Selection.FilterAppend | front.py:386-389 | filtering splits along any split of the list |
| Selection.FilterMembers | front.py:386-389 | the filter keeps exactly the entries its test accepts |
| Selection.FilterGroup | front.py:386-389 | the filtered category is never larger than the category |
| Selection.FilterGroupMembers | front.py:386-389 | the filtered category holds exactly the category's entries that the query shows |
| Selection.FilterGroupAppend | front.py:386-389 | the filter keeps the category's order |
| Selection.FilterAll | front.py:386-389 | a test that accepts every entry keeps the whole list |
| Selection.FilterIdempotent | front.py:386-389 | filtering twice with the same test filters once |
| Selection.EmptyQueryShowsAll | front.py:388 | an empty query shows the whole category |
| Selection.FilterGroupIdempotent | front.py:386-389 | filtering twice with the same query filters once |
| Selection.Without | front.py:404 | every occurrence of a key removed, and nothing else |
| Selection.WithoutAppend | front.py:404 | removing all occurrences splits along any split of the list |
| Selection.RemoveFirst | front.py:404 | `list.remove` shortens the list by one when the key is present, leaves it unchanged otherwise, and touches no other key |
| Selection.RemoveFirstDropsFirst | front.py:404 | the occurrence `list.remove` drops is the first: the result is the list before it followed by the list after it |
| Selection.RemoveFirstNoDuplicates | front.py:403-404 | on a duplicate-free list, removal leaves the key out entirely and the list duplicate-free |
| Selection.Toggle | front.py:400-404 | a checked box leaves its key selected; no other key changes |
| Selection.ToggleOnDuplicateFree | front.py:400-404 | on a duplicate-free selection, the key is selected exactly when the box is checked, and no duplicate appears |
| Selection.ApplyBoxes | front.py:385-404 | keys with no box drawn keep their membership through a rendering of the picker |
| Selection.ApplyBoxesKeepsNoDuplicates | front.py:385-404 | the picker keeps a selection duplicate-free, and the final box drawn decides its key |
| Selection.ApplyBoxesLastBoxDecides | front.py:385-404 | for every key, the last box drawn for it decides whether it ends up selected, whatever boxes for other keys follow |
| Selection.AddCustom | front.py:421-422 | a custom entry is appended only when non-empty and new; the old selection is a prefix; a duplicate-free selection stays so |
| Selection.AllEntries | front.py:477 | every entry of every category is among the flattened entries |
| Selection.EntryOfAll | front.py:477-478 | every flattened entry comes from some category |
| Selection.PillLabel | front.py:475-480 | the pill shows the label from the first category that has the key, else the key itself |
| Selection.PillOfCustomEntry | front.py:475-480 | a key that no category lists is shown as written |
| Report.SexWord | app.py:173 | the word is "Masculino" exactly when the code is 1, and "Feminino" otherwise |
| Report.Header | app.py:157-198 | the fixed lines are on page 0, are not bullets, and all lie above the top of the comorbidity list |
| Report.Place | app.py:201-214 | each item placed once, in order; each step opens a new page exactly when the cursor is below margin + 50, else it stays on the page at the cursor; the cursor drops 14 per bullet |
| Report.PagesCountBreaks | app.py:203-205 | bullet i is on the starting page plus the number of page breaks up to it |
| Report.PagesAscend | app.py:203-205 | pages never go back along the list |
| Report.ListTop | app.py:155-201 | the list starts 20 points below the "Comorbidades Identificadas:" heading at 205 below the top, and below a continuation page's first bullet line |
| Report.FreshTop | app.py:205-208 | on a new page the first bullet is 20 points below the continuation caption, which stands at the margin from the top |
| Report.NoBulletBelowThreshold | app.py:203-214 | when a page can hold one bullet, no placement is below margin + 50, and none above the higher of the starting cursor and a new page's first line |
| Report.RunOnOnePage | app.py:203-214 | while the cursor stays above the threshold, bullets run down one page 14 points apart |
| Report.BreakAfterRun | app.py:203-208 | the bullet after such a run opens the next page at its top line |
| Report.EmitOne | app.py:203-213 | a placement that opens a page draws the continuation caption at (margin, height − margin) and then its bullet; any other draws only the bullet; the bullet is at (margin + 10, its y) with its label looked up in the table; all on its page |
| Report.Emit | app.py:201-214 | at least one command per placement |
| Report.EmitOneBullet | app.py:211-213 | one placement gives exactly one bullet, its label looked up in the table |
| Report.EmitDrawsEachItemOnce | app.py:201-214 | the bullets are the items' labels, in order, each exactly once |
| Report.EmitPages | app.py:201-214 | every command is on the page of some placement |
| Report.EmitBulletHeights | app.py:201-214 | every bullet drawn stands at the y of some placement |
| Report.Block | app.py:200-217 | the block is never empty and has a command per item |
| Report.BlockBullets | app.py:200-217 | the block's bullets are the items' labels, in order |
| Report.Render | app.py:151-224 | the report has at least 14 commands and ends with the footer at y = margin + 30 on the last page of the list |
| Report.BlockBulletsAboveThreshold | app.py:203-214 | when a page can hold one bullet, no bullet of the comorbidity block is drawn below margin + 50 |
| Report.RenderBulletsAboveThreshold | app.py:203-214 | the same for every bullet drawing command of the whole report |
| Report.SexLineOfReport | app.py:173 | the sixth command is the sex line, on the right-hand column of page 0 |
| Report.RenderDrawsItemsInOrder | app.py:195-222 | the report's bullets are exactly the items' labels, in order, each once |
| Report.NoneLineExactlyWhenEmpty | app.py:201-217 | the block is the single "Nenhuma comorbidade identificada" line exactly when the list is empty, and then there is no bullet |
| Report.FooterOnLastPage | app.py:219-222 | no command is on a later page than the footer |
| Report.A4ListRoom | app.py:152-214 | on A4, 38 lines of 14 points fit between the top of the list and the threshold, and 39 do not |
| Report.A4FirstPageHolds38 | app.py:152-214 | on A4 the first page holds 38 bullets, and the 39th opens page 1 below the continuation caption |
| Consultation.IsoDate | front.py:447 | `%Y-%m-%d` has ten characters with dashes at 4 and 7, and its three digit fields read back as the year, month and day |
| Consultation.KeyEntries | front.py:452 | the selection is posted as is, one string entry per key |
| Consultation.KeyEntriesListSelection | front.py:452 | a key is listed in the payload exactly when it is selected |
| Consultation.BuildPayload | front.py:445-453 | the payload lists the selection as it stands |
| Consultation.FormSexCode | front.py:449 | the backend's code is 2 exactly when the form says "Feminino" |
| Consultation.FormRow | front.py:445-453 | the backend's row holds the form's age in slot 0 and sets each comorbidity slot exactly when its key is selected |
| Consultation.FormSelection | front.py:445-453 | the backend selects exactly the selected keys that are columns |
| Consultation.FormBmiAgrees | front.py:450-451 | the backend's index is present exactly when the form's height is positive, and equals the form's index whenever the form shows one |
| Consultation.OneKeyPayload | front.py:445-453 | a one-key payload is the empty payload with that key listed |
| Consultation.EmptySelectionRow | app.py:245-248 | an empty selection sets no comorbidity slot |
| Consultation.HepaticCancerBoxIsLost | front.py:98 | as written, ticking "Câncer hepático" gives the row of an empty selection, with column 30 at 0 |
| Consultation.HepaticCancerBoxIsKept | front.py:98 | with the catalogue spelling, the same box sets column 30 |
| Consultation.PickerKeyIsColumn | front.py:57-141 | with the catalogue spelling, every picker key is a column other than age and sex |
| Consultation.PickedKeysAreSelected | front.py:385-453 | with the catalogue spelling, every key picked in the form reaches the classifier as a selected column |
| Consultation.ConsultationReport | app.py:279-289 | the report of a consultation has at least 14 commands |
| Consultation.ReportListsSelectedLabels | app.py:279-289 | the bullets are the selected keys' Portuguese labels, in input order, although the renderer looks each label up again |
| Consultation.ReportSexWord | app.py:279-289 | the report says "Feminino" exactly when the payload's sex encodes to 2 |
| Consultation.UnknownOnlyReportSaysNone | app.py:279-289 | a consultation whose only comorbidity is unknown selects nothing and draws no bullet |

## Left out

- The Flask routes, CORS, `url_for` and `send_from_directory` (app.py:264-316) are network plumbing. So is the HTTP call `fazer_predicao` (front.py:171-197).
- Classifier loading and inference (`joblib.load`, `predict_proba`) is a foreign call. The probability only enters the report as a header line, which the model names and does not format.
- SQLite schema creation and the INSERT (app.py:124-145, 292-305) belong to a foreign storage engine.
- Streamlit rendering, the session and rerun machinery, the login and registration pages, and the form's validation messages are UI.
- `datetime.now()` is a clock. The PDF's timestamped name and the footer's timestamp text are left out. The form's date is a parameter (`Date`).
- `json.loads` is a foreign parser. A comorbidity string is modelled with the result of its parse as an `Option`.
- JSON values other than strings are one `NonText` entry. Such a value never equals a catalogue key.
- The reportlab canvas, fonts and string widths are left out. The report is the list of drawing commands.
- Encoder.MetadataOf: height and weight are exact reals, with no NaN, no infinity, no overflow and no underflow. In the source they are IEEE doubles. A positive height below about 1.5e-162 (say 1e-200) passes the `altura > 0` test, but `altura*altura` (app.py:252) underflows to 0.0. `peso/0.0` then raises ZeroDivisionError and the request fails, while the model promises an index for every positive height. JSON `NaN` and `Infinity`, which the request parser accepts, have no counterpart either.
- Encoder.MetadataOf: the index is not rounded to one decimal, because rounding is floating-point arithmetic. The same holds for the rounding of the probability and for every `%.2f`-style formatting.
- Intake.CalcBmi: the index is not rounded to one decimal (front.py:151), because rounding is floating-point arithmetic. Height and weight are exact reals, as for Encoder.MetadataOf.
- Report.Header: field lines are named by their caption, and their values are not formatted.
- Text.IsAlnum: exact only up to U+00FF; characters above count as not alphanumeric. Names outside Latin-1 are therefore cleaned more strictly than Python would clean them.
- Text.Lower: capitals above U+00FF are not lowered. Text.LowerChar, which Lower applies to each character, maps only ASCII and Latin-1 capitals. The picker's search can therefore miss a match that Python would find, for a query or label with such capitals. The sex code is unaffected. Above U+00FF only the Kelvin sign lowers to a lone ASCII letter, and that letter is "k". U+0130 lowers to "i" followed by a combining dot. So no such capital can complete "f", "feminino" or "female".
- Intake.DateStamp: years outside 1000–9999 are not modelled. Those years are not four digits wide.
- Consultation.IsoDate: the same restriction to four-digit years. The payload and the lemmas about it require it too.
- Encoder.OrZero: the numeric fields are numbers in the model. In the source, `float(...)` (app.py:229, 250, 251) also accepts a numeric string such as "50" as 50.0. It raises ValueError for text such as "abc", and the request then fails with HTTP 500. Neither coercion nor that failure is modelled.
- Encoder.Entries: the model has no failing case for a non-iterable comorbidity value. It covers a string that parses to a number, `true` or `null` ("5", "true", "null"), and a truthy number or `true` sent directly in `comorbidades`. In the source, `for it in raw_comorb` (app.py:239) raises TypeError on these and the request fails. The model can only read them as some list of entries or as none. Iterable values do not fail:
  - A JSON object, sent directly or as a string, is iterated over its keys. So `{"SAH": 1}` selects "SAH", and the model represents it as `Listed([Key("SAH")])`.
  - A string that parses to a string is iterated over its characters, and no single character is a column.
- Intake.ClassifyBmi: it receives the unrounded index, while the form classifies the index already rounded to one decimal (front.py:333-334). The band can therefore differ at the cut-offs: 24.96 is "Eutrofia" here and "Sobrepeso" in the form, which rounds it to 25.0.
- Encoder.Encode: `selected_pt` is not stored in the encoding. It is `LocalizeAll` of the selected keys, computed where it is needed; `Catalogue.LocalizeAll` states it.
- model.py trains the classifier using randomness. model_test.py references undefined names. Neither is part of this model.

## Findings

| source | as written | input that shows it | evidently intended | confidence | as-written member | corrected member |
|---|---|---|---|---|---|---|
| front.py:98 | the "Renais / Hepáticas" picker offers the key "hepatic_cancer", which is not in `FEATURE_NAMES` (app.py:30 spells it "hepatic cancer") | tick "Câncer hepático" and nothing else: the backend drops the key and column 30 stays 0, as for an empty selection | the key "hepatic cancer", so that ticking the box sets column 30 | high, not executed | Consultation.HepaticCancerBoxIsLost | Consultation.HepaticCancerBoxIsKept |
