# thai-data, modelled in Dafny

thai-data builds a table of Thai addresses. A Python builder
(`builder/build.py`, with an older copy of its helpers in `build.py`) reads
the Department of Provincial Administration's list of 8-digit area codes
and a table of postal codes. Three things happen in the builder:

- Each district's free-text "notes" cell names the subdistricts that use a
  different postal code, in sentences such as
  "ยกเว้น ตำบลอออและตำบลขขข ใช้รหัส 12345" ("except subdistricts อออ and ขขข,
  which use code 12345"). This text is parsed into an exception map.
- A province → district → subdistrict tree is assembled from the codes.
- The tree is flattened into one record per subdistrict.

The records are published with a small query layer (`src/index.ts`,
`src/index.mjs`). It is built from lodash `filter`/`uniq`/`uniqBy`/`sortBy`/`map`
chains over a constant list of records.

The Dafny project covers:

| module | file | models |
|---|---|---|
| `Strings` | strings.dfy | the Python `str` operations the builder relies on: `\s`/`isspace`, `\d`, `strip`, `split`, `split(sep, n)`, `find`, `lower` |
| `ExceptionClauses` | exception_clauses.dfy | `extract_subdistrict_name` and `extract_exceptional_zips` (the notes-cell parser) |
| `ClauseLists` | clause_lists.dfy | the notes-cell parser run forward on well-formed single-clause cells: a list of designated names, perhaps mixed with other words, and a code gives exactly the designated names, including the builder's own example sentences |
| `CompoundCells` | compound_cells.dfy | the notes-cell parser run forward on compound cells, whose clauses follow dash glyphs: the clauses' maps merged in order, including the builder's multi-clause example sentences |
| `AddressTokens` | address_tokens.dfy | `extract_province`/`district`/`subdistrict`/`zip`, with the in-place `tokens.reverse()` as an array method |
| `CliOptions` | cli_options.dfy | `parse_options`, a loop over the argument list |
| `Hierarchy` | hierarchy.dfy | `get_zip`, `clean_district_name`, `build_map` (a class whose method appends in place) and `build_tumbon_resource` (methods proved against a functional tree) |
| `FlatData` | flat_data.dfy | `flat_structured_data`, three nested loops |
| `LegacyBuild` | legacy_build.dfy | the `build_tumbon_resource` of `build.py`, which carries no codes; it is proved to be the builder's tree with the codes forgotten |
| `Lists` | lists.dfy | the lodash semantics the query layer uses |
| `ThaiAddr` | thai_addr.dfy | the query methods of `src/index.ts` and `src/index.mjs` |
| `Wrappers` | wrappers.dfy | `Option` |

The root `build.py` has the same text as `builder/build.py` for the address
tokenisers, `get_zip`, `clean_district_name` and `build_map`. Those are
modelled once. Below, the round-trip lemmas cite the `build.py` copy. Likewise,
`src/index.ts` and `src/index.mjs` share every query except
`findBySubdistrictCode`, and some rows cite one file or the other.

Python crashes become preconditions, because the source does not handle them:
- a missing dictionary key (`zip_data[...]`, `subdistricts_map[...]`, `districts_map[...]`);
- a missing token (`tokens[1]`, `tokens[2]`);
- a failed match (`matches[1]` in `extract_zip`).

Everything else is total and modelled on all inputs.

## Model

| member | source | states |
|---|---|---|
| ExceptionClauses.ExtractSubdistrictName | builder/build.py:100-104 | the result is non-empty exactly when the text starts with "ตำบล" or "แขวง" followed by at least one character other than a line break; it is then the text after the designator up to the first line break |
| ExceptionClauses.DesignatedNameRoundTrip | builder/build.py:100-104 | "ตำบล" or "แขวง" followed by a one-line name gives back exactly that name |
| ExceptionClauses.NoiseLength | builder/build.py:110 | a post-office annotation at the front is recognised exactly when the text starts with "(ไปรษณีย์", then a character other than ")", then a later ")"; its length reaches the first such ")", with none before it |
| ExceptionClauses.RemovePostOfficeNoise | builder/build.py:110 | removing annotations never lengthens the text |
| ExceptionClauses.NoNoiseUnchanged | builder/build.py:110 | text without "(ไปรษณีย์" is left unchanged |
| ExceptionClauses.KeepsFirst | builder/build.py:110 | where no annotation starts, the first character is kept and the scan goes on from the next one |
| ExceptionClauses.DropsLeading | builder/build.py:110 | an annotation at the front is deleted whole, and the scan resumes after it |
| ExceptionClauses.AnnotationOfOne | builder/build.py:110 | "(ไปรษณีย์" followed by one character and ")" is an annotation of 11 characters |
| ExceptionClauses.NoOpenInTail | builder/build.py:110 | after the opening parenthesis of a short annotation, no further "(ไปรษณีย์" starts |
| ExceptionClauses.LoneAnnotationDeleted | builder/build.py:110 | a text that is one annotation becomes empty |
| ExceptionClauses.InnerAnnotationDeleted | builder/build.py:110 | an annotation right after "(" is deleted and the "(" is kept |
| ExceptionClauses.NoiseRemovalNotIdempotent | builder/build.py:110 | one pass over a nested annotation exposes a new annotation that a second pass would delete, so the removal is not idempotent |
| ExceptionClauses.CleanClause | builder/build.py:110-111 | the cleaned cell is no longer than the cell, and trimmed |
| ExceptionClauses.ClauseData | builder/build.py:110-116 | a body exists exactly when the cleaned cell starts with "ยกเว้น"; it is trimmed and at least six characters shorter than the cell |
| ExceptionClauses.MarkedGlyphBody | builder/build.py:113-116 | "ยกเว้น" followed by one non-space glyph other than "(" has that glyph as its body |
| ExceptionClauses.DashSeparatorShift | builder/build.py:118 | a separator (one of the three dashes followed by a space) occurs in the text exactly when it occurs after the first character, unless the text starts with one |
| ExceptionClauses.SplitOnDash | builder/build.py:122 | `re.split` with the capturing dash group: the pieces alternate between text free of separators and single dash glyphs, starting with a prefix of the text; a text without a separator is one piece; each piece is at least two characters shorter than the text |
| ExceptionClauses.SplitOnDashRejoins | builder/build.py:122 | the pieces, with the space each separator consumed put back after its dash, rejoin to exactly the text that was split |
| ExceptionClauses.SplitOnDashAfterPiece | builder/build.py:122 | the split cuts at the leftmost separator: a separator-free piece, a dash and a space, then any text split as that piece, the dash and the split of the text |
| ExceptionClauses.ClauseRows | builder/build.py:120-124 | every row is "ยกเว้น" plus one of the pieces, and that piece does not strip to empty |
| ExceptionClauses.ClauseRowsOfOne | builder/build.py:120-124 | one piece gives the row "ยกเว้น" + piece when it is not blank, and no row when it is |
| ExceptionClauses.ClauseRowsAppend | builder/build.py:120-124 | the rows of two runs of pieces are the rows of the first run followed by those of the second, so rows keep the pieces' order |
| ExceptionClauses.DashRowsAfterPiece | builder/build.py:120-124 | a body that starts with a separator-free piece and a separator gives the piece's row (none if blank), the row of the dash alone, then the rows of the rest |
| ExceptionClauses.SubClausesOfPair | builder/build.py:118-124 | two non-blank separator-free clauses joined by a dash and a space give exactly three sub-clauses: the first clause, the dash alone, the second clause, each behind "ยกเว้น" |
| ExceptionClauses.SubClauses | builder/build.py:118-124 | every sub-clause starts with "ยกเว้น", has a body that is not blank, and is at most four characters longer than the body it came from, which makes the recursion terminate |
| ExceptionClauses.MergeAll | builder/build.py:126 | the keys of the merged map are exactly the keys of the maps merged |
| ExceptionClauses.MergeAllLastWins | builder/build.py:126 | on a key collision the value of the last map holding the key wins |
| ExceptionClauses.MergeAllValueFromSome | builder/build.py:126 | every merged value comes from one of the maps merged |
| ExceptionClauses.SubClauseMaps | builder/build.py:125 | one clean map per sub-clause |
| ExceptionClauses.SubClauseMapAt | builder/build.py:125 | the i-th map is the parse of the i-th sub-clause |
| ExceptionClauses.MergedKeysClean | builder/build.py:126 | merging clean maps gives a clean map |
| ExceptionClauses.CompoundClause | builder/build.py:118-127 | a compound body yields a clean map |
| ExceptionClauses.CompoundKeys | builder/build.py:118-127 | a compound clause's keys are exactly the keys found by parsing its sub-clauses |
| ExceptionClauses.CompoundLastWins | builder/build.py:118-127 | a key parsed from several sub-clauses takes its value from the last of them |
| ExceptionClauses.DashSegmentNoExceptions | builder/build.py:120-125 | a dash-glyph segment re-prefixed as "ยกเว้น-" (or with another dash) contributes nothing |
| ExceptionClauses.MatchTrailingCode | builder/build.py:130-136 | a code is found only as five digits after "ใช้รหัส " at the very end (13 characters in all), with no line break before them; whenever the text has that shape, the code is found |
| ExceptionClauses.ParenthesisTailNoCode | builder/build.py:131-136 | a body that ends in ")" carries no code |
| ExceptionClauses.ParenthesisTailNoExceptions | builder/build.py:131-136 | a single clause whose body ends in ")" yields the empty map |
| ExceptionClauses.SpaceRun | builder/build.py:140 | the whitespace run at the front is as long as possible |
| ExceptionClauses.SplitNameList | builder/build.py:140 | `re.split(r"(\s+\|และ)")`: an odd number of pieces, starting with a prefix of the text; even-numbered pieces are parts of the text with no whitespace and no "และ", odd-numbered pieces are separators |
| ExceptionClauses.SplitNameListRejoins | builder/build.py:140 | the pieces, separators included, concatenate back to exactly the text that was split |
| ExceptionClauses.TokensAreWordPieces | builder/build.py:140-141 | every kept token is a word piece of the text |
| ExceptionClauses.SeparatorStripsAway | builder/build.py:140-141 | every separator strips to "" or "และ", so the filter drops all of them |
| ExceptionClauses.NameTokens | builder/build.py:140-141 | the kept tokens are exactly the pieces whose stripped form is neither empty nor "และ" |
| ExceptionClauses.SubdistrictNames | builder/build.py:138-142 | each token is mapped through the name normaliser, in order |
| ExceptionClauses.NameOfWordIsClean | builder/build.py:138-144 | a name taken from a token without whitespace or "และ" is a clean key |
| ExceptionClauses.ParseSingleClause | builder/build.py:129-144 | a single clause without a trailing code yields the empty map; otherwise every value is that code (which names become keys: `ExceptionClauses.ParseSingleClauseKeys`) |
| ExceptionClauses.ParseSingleClauseKeys | builder/build.py:129-144 | a name is a key exactly when the clause ends in a code and the name is non-empty and cut by the normaliser from a token before the code that starts with "ตำบล" or "แขวง"; tokens without a designator add no key |
| ExceptionClauses.SingleClauseKeys | builder/build.py:138-144 | every key of a single clause is non-empty and has no whitespace and no "และ", and every value is five digits |
| ExceptionClauses.TrimmedClauseCode | builder/build.py:130-144 | a non-empty single-clause map means the body ends in "ใช้รหัส " plus five digits, and every value equals those digits |
| ExceptionClauses.SingleClauseCode | builder/build.py:130-144 | the same, stated for the whole cell |
| ExceptionClauses.TinyBodyNoExceptions | builder/build.py:129-136 | a body of at most one character yields the empty map |
| ExceptionClauses.ExtractExceptionalZips | builder/build.py:107-144 | the result is always a clean map; it is empty without the marker, the single-clause parse without a separator, and the merged compound parse otherwise (what a well-formed cell gives: `ClauseLists.SingleListCell`, `CompoundCells.CompoundCell`) |
| ExceptionClauses.NoMarkerNoExceptions | builder/build.py:110-114 | a cell with no annotation and no leading "ยกเว้น" yields the empty map |
| ExceptionClauses.AnnotationOnlyNoExceptions | builder/build.py:110-114 | a cell that is only a post-office annotation yields the empty map |
| ExceptionClauses.EmptyCellNoExceptions | builder/build.py:110-114 | the empty cell yields the empty map |
| ClauseLists.WordThenSeparator | builder/build.py:140 | a word free of whitespace and "และ", followed by a separator or the end, is one whole piece of the split |
| ClauseLists.ConnectiveDropped | builder/build.py:140-141 | a connective made of spaces and "และ" in front of a text adds no name token |
| ClauseLists.ListTokens | builder/build.py:140-141 | the name tokens of a list of designated names joined by connectives are exactly the names with their designators, in order |
| ClauseLists.ListClause | builder/build.py:129-144 | a list of designated names followed by " ใช้รหัส " and five digits maps every listed name, and nothing else, to the code |
| ClauseLists.SingleListCell | builder/build.py:107-144 | the cell "ยกเว้น " + such a list + " ใช้รหัส " + five digits maps every listed name, and nothing else, to the code |
| ClauseLists.PlainThenAnnotation | builder/build.py:110 | plain text followed by one whole post-office annotation: the text is kept and the annotation deleted |
| ClauseLists.WholeAnnotation | builder/build.py:110 | "(ไปรษณีย์" + a place name without ")" + ")" is one annotation, as long as the whole |
| ClauseLists.NoteDeleted | builder/build.py:110-111 | a trimmed plain clause followed by a space and an annotation cleans to the clause |
| ClauseLists.AnnotatedListCell | builder/build.py:107-144 | a single-clause cell with a post-office annotation after the code gives the same map as without it |
| ClauseLists.OneNameCell | builder/build.py:107-144 | "ยกเว้น " + one designated name + " ใช้รหัส " + code maps that name to the code |
| ClauseLists.TwoNameCell | builder/build.py:107-144 | two designated names joined by a connective map both names to the code |
| ClauseLists.FourNameCell | builder/build.py:107-144 | four designated names joined by connectives map all four to the code |
| ClauseLists.TwoNamesJoinedByConjunction | builder_tests/extract_exceptional_test.py:20-26 | "ยกเว้น ตำบลอออและตำบลขขข ใช้รหัส 12345" gives {อออ: 12345, ขขข: 12345} |
| ClauseLists.FourNamesJoinedBySpaces | builder_tests/extract_exceptional_test.py:29-35 | "ยกเว้น ตำบลอออ ตำบลขขข ตำบลจจจและตำบลกกก ใช้รหัส 12345" gives the four names with 12345 |
| ClauseLists.FourNamesWithSpacedConjunction | builder_tests/extract_exceptional_test.py:38-44 | the same four names with " และ" before the last give the same map |
| ClauseLists.OneNameClause | builder_tests/extract_exceptional_test.py:47-53 | "ยกเว้น ตำบลลลล ใช้รหัส 12345" gives {ลลล: 12345} |
| ClauseLists.AnnotatedOneNameClause | builder_tests/extract_exceptional_test.py:56-62 | "ยกเว้น ตำบลลลล ใช้รหัส 12345 (ไปรษณีย์นครนายก)" gives {ลลล: 12345} |
| ClauseLists.PlainClauseCell | builder/build.py:110-144 | "ยกเว้น " + a trimmed body with no line break, no "(" and no dash separator gives the single-clause parse of that body |
| ClauseLists.AnnotatedClauseCell | builder/build.py:110-144 | such a cell followed by a space and a post-office annotation gives the same parse |
| ClauseLists.NotedClauseCell | builder/build.py:110-144 | such a cell with a post-office annotation or nothing on each side gives the same parse |
| ClauseLists.NotedListCell | builder/build.py:107-144 | a list of entries with a post-office annotation or nothing on each side maps exactly the designated names to the code |
| ClauseLists.EightWordsBetweenNotes | builder/build.py:107-144 | eight entries, designated or not, between two annotations: exactly the designated names get the code |
| ClauseLists.KhwaengMixedCell | builder/build.py:107-144 | three names after "แขวง" mixed with other words: the three names, and no other word, get the code |
| ClauseLists.MixedListBetweenNotes | builder_tests/extract_exceptional_test.py:84-89 | the Khlong Chan cell gives {นวลจันทร์, นวมินทร์, คลองกุ่ม: 10230}; "เฉพาะซอยนวมินทร์", "103-111", "64-68," and "74" add nothing |
| CompoundCells.CompoundCell | builder/build.py:107-127 | an annotation or nothing, spaces, "ยกเว้น", spaces and well-formed sub-clauses, each after a dash glyph and a space, give the bodies' single-clause maps merged in order; dash segments and annotations between clauses add nothing |
| CompoundCells.TwoClauseCell | builder/build.py:118-127 | two sub-clauses give the second body's map merged over the first's |
| CompoundCells.ThreeClauseCell | builder/build.py:118-127 | three sub-clauses give the bodies' maps merged in order |
| CompoundCells.FourClauseCell | builder/build.py:118-127 | four sub-clauses give the bodies' maps merged in order |
| CompoundCells.TwoListedClauses | builder/build.py:107-144 | two name lists with codes, each after a dash, give the union of their maps, the second code winning on a shared name |
| CompoundCells.ThreeNotedBodies | builder/build.py:107-127 | three bodies after dashes, the first two followed by an annotation or nothing, after an annotation or nothing and the marker: the bodies' maps merged in order |
| CompoundCells.UndesignatedBody | builder/build.py:138-144 | a word without a designator and a code gives no key |
| CompoundCells.NotedCodeBody | builder/build.py:131-136 | a code followed by a parenthesised word that is not a post-office annotation is not at the end, so the clause gives no key |
| CompoundCells.MarkedBodyData | builder/build.py:110-116 | a clause body right after "ยกเว้น " survives the cleaning and is the clause data |
| CompoundCells.ParenthesisedTailCell | builder/build.py:110-136 | "ยกเว้น " + a word, a code and a parenthesised non-annotation gives the empty map |
| CompoundCells.FourTambonClauses | builder/build.py:107-144 | four sub-clauses of four, three, two and one names after "ตำบล" map each name to its own clause's code |
| CompoundCells.NotedTambonClauses | builder/build.py:107-144 | three annotated sub-clauses, of which only the first has designated names: only those names get a code |
| CompoundCells.FourListClauses | builder_tests/extract_exceptional_test.py:64-81 | the four-clause cell maps its ten names to 12345, 23456, 98765 and 76156 by clause |
| CompoundCells.PostOfficeNamedCell | builder_tests/extract_exceptional_test.py:92-97 | "ยกเว้น ศูนย์ไปรษณีย์หลักสี่ ใช้รหัส 10010 (ศูนย์ไปรษณีย์หลักสี่)" gives {} |
| CompoundCells.KhonKaenClauses | builder_tests/extract_exceptional_test.py:100-105 | the Khon Kaen cell with "−" dashes gives {ท่าพระ, ดอนหัน: 40260}; the university and the post office add nothing |
| Hierarchy.GetZip | builder/build.py:244-247 | an exception entry for the name wins; otherwise the primary code |
| Hierarchy.CleanDistrictName | builder/build.py:325-328 | a leading "เขต" is removed once; otherwise the name is unchanged |
| Hierarchy.KhetRemovedOnce | build.py:237-240 | "เขต" + name gives back the name, even when the name itself starts with "เขต" |
| Hierarchy.CodeKinds | builder/build.py:260-318 | each code is exactly one of a province code (ends in "000000"), a district code (ends in "0000" but not "000000") or a subdistrict code |
| Hierarchy.AddToBucket | build.py:242-246 | the key's list gets the value at its end (created empty first when absent); every other key is unchanged |
| Hierarchy.Buckets.constructor | builder/build.py:270 | the fold starts from the empty dictionary |
| Hierarchy.Buckets.BuildMap | builder/build.py:331-335 | the in-place update leaves exactly `AddToBucket` of the old contents |
| Hierarchy.GroupedSnoc | builder/build.py:263-271 | folding one more item adds it to its key's bucket |
| Hierarchy.GroupedValues | builder/build.py:263-271 | a key is present after the fold exactly when some item has it, and its list is that key's values in input order |
| Hierarchy.ValuesForPresent | builder/build.py:263-271 | a key has values exactly when some item carries it |
| Hierarchy.GroupSubdistricts | builder/build.py:253-271 | the subdistrict rows (codes not ending in "0000") are grouped under their first four characters, in input order |
| Hierarchy.SubdistrictItemOfRow | builder/build.py:253-271 | every subdistrict row contributes an item under its district prefix |
| Hierarchy.ZippedSubdistricts | builder/build.py:295-304 | each subdistrict keeps its name and code and gets `get_zip` of its district's postal data |
| Hierarchy.GroupDistricts | builder/build.py:273-309 | the district rows are grouped under their first two characters, each with its cleaned name, its code and its zipped subdistricts |
| Hierarchy.DistrictItemOfRow | builder/build.py:273-309 | every district row contributes an item under its province prefix |
| Hierarchy.DistrictsResolvable | builder/build.py:280-281 | with the source's lookups defined, every district finds its subdistrict list |
| Hierarchy.ProvincesResolvable | builder/build.py:316 | with the source's lookups defined, every province finds its district list |
| Hierarchy.ProvinceList | builder/build.py:311-320 | one node per province row, in input order |
| Hierarchy.ProvincesOfRows | builder/build.py:311-320 | the provinces are exactly the codes ending in "000000", in input order, each with the districts under its prefix |
| Hierarchy.TumbonTree | builder/build.py:250-322 | the tree has one node per province row, in order, each holding its name, its code and the districts whose code starts with its prefix |
| Hierarchy.BuildTumbonResource | builder/build.py:250-322 | the method that folds with the in-place `build_map` returns exactly that tree |
| Hierarchy.TreeShape | builder/build.py:250-322 | provinces, districts and subdistricts are classified by code suffix and grouped by prefix |
| Hierarchy.SubdistrictsOfDistrict | builder/build.py:273-309 | a district node has the cleaned name and the code of its row, and one subdistrict per row under its four-character prefix, in order, each zipped with `get_zip(zip_data[district], name)` |
| LegacyBuild.LegacyZipped | build.py:223-226 | each legacy subdistrict is its name with `get_zip` of the district's data |
| LegacyBuild.SubdistrictGroupsAgree | build.py:205-212 | the legacy subdistrict groups are the builder's groups with the codes forgotten |
| LegacyBuild.ZippedAgree | build.py:223-226 | zipping agrees between the two copies |
| LegacyBuild.DistrictItemsAgree | build.py:214-227 | the legacy district items are the builder's with the codes forgotten |
| LegacyBuild.ProvinceNodesAgree | build.py:229-232 | the legacy province list is the builder's with the codes forgotten |
| LegacyBuild.LegacyDistrictGroups | build.py:221-227 | every legacy district lookup succeeds, and each group is the builder's group with codes forgotten |
| LegacyBuild.LegacyTree | build.py:202-234 | the legacy tree is the builder's tree with every code forgotten |
| LegacyBuild.LegacyAgrees | build.py:202-234 | the two trees have the same provinces, in the same order, with the same districts apart from codes |
| LegacyBuild.MapItemsAppend | build.py:221-227 | mapping the values of a list of items distributes over concatenation |
| LegacyBuild.ValuesForMapped | build.py:221-227 | the values under a key commute with mapping the values |
| LegacyBuild.GroupedMapped | build.py:221-227 | grouping commutes with mapping the values |
| FlatData.SubdistrictRecords | builder/build.py:352-363 | one record per subdistrict of the district, in order, each carrying the subdistrict, district and province names and codes |
| FlatData.AppendDistrict | builder/build.py:352-363 | the inner loop appends exactly those records |
| FlatData.AppendProvince | builder/build.py:350-363 | the middle loop appends the records of every district, district by district |
| FlatData.FlatStructuredData | builder/build.py:346-364 | the nested loops produce exactly the flattened tree |
| FlatData.FlattenCount | builder/build.py:346-364 | the flat list has exactly one record per subdistrict |
| FlatData.DistrictRecordsMembers | builder/build.py:350-363 | a record belongs to a province exactly when it is the record of one of its subdistricts |
| FlatData.FlattenProvinceMembers | builder/build.py:346-364 | a record is in the flat list exactly when it belongs to one of the provinces |
| FlatData.FlattenMembers | builder/build.py:346-364 | a record is in the flat list exactly when it is the record of some subdistrict of some district of some province, with their names and codes |
| FlatData.FlattenAppend | builder/build.py:346-364 | province order is kept: earlier provinces' records come first |
| CliOptions.LogLevel | builder/build.py:385 | the log resolver always gives "debug", "error" or "info": the lower-cased value when it is one of them, else "info" |
| CliOptions.FlagPieces | builder/build.py:394 | `split("=", 2)` gives one to three pieces |
| CliOptions.Apply | builder/build.py:392-403 | an argument without "-" changes nothing, and a known log level stays known |
| CliOptions.FlagEffect | builder/build.py:393-403 | a flag sets exactly the option it names (lower-cased) through that option's resolver, and leaves the others |
| CliOptions.ParseOptions | builder/build.py:380-404 | the loop from the defaults returns exactly the left-to-right reading of the arguments |
| CliOptions.LogAlwaysKnown | builder/build.py:385-391 | the resulting log level is always one of the three known levels |
| CliOptions.InterpretAppend | builder/build.py:392-403 | reading `xs + ys` is reading `ys` from the options `xs` left |
| CliOptions.NonFlagIgnored | builder/build.py:393 | an argument without a leading "-" has no effect wherever it appears |
| CliOptions.SetsKeyOfLast | builder/build.py:392-403 | an argument list sets a key exactly when its last argument does or the ones before it do |
| CliOptions.LaterFlagsDecide | builder/build.py:392-403 | once a later argument sets a key, the starting value of that key no longer matters |
| CliOptions.LaterOverrides | builder/build.py:392-403 | arguments that set a key override every earlier argument for that key |
| CliOptions.UnknownFlagIgnored | builder/build.py:400 | a flag whose key is not "check", "prod" or "log" changes nothing |
| CliOptions.BareFlag | builder/build.py:394-398 | a flag without "=" has the lower-cased name as key and the value "true" |
| CliOptions.PairFlag | builder/build.py:394-398 | "-name=value" has key `lower(name)` and value `value` |
| CliOptions.SecondEqualsMakesBareFlag | builder/build.py:394-398 | with a second "=", the split gives three pieces and the value falls back to "true", so `-log=a=b` sets the level to "info" |
| CliOptions.BareFlagSwitchesOn | builder/build.py:383-398 | `-check` and `-prod` (in any letter case) switch their option on |
| CliOptions.LogFlagSetsLevel | builder/build.py:385 | `-log=<level>` with a known level, in any letter case, sets it in lower case |
| CliOptions.DistinctFlagsCommute | builder/build.py:400-403 | flags for different keys can be swapped |
| AddressTokens.Reversed | builder/build.py:163 | the reversed list holds element `n-1-i` at position `i` |
| AddressTokens.ReverseInPlace | builder/build.py:163 | `list.reverse()` leaves the array holding the reversal of its old contents |
| AddressTokens.ReversedWords | builder/build.py:162-163 | a fresh array of the space-separated words, last one first |
| AddressTokens.ProvinceName | builder/build.py:164-167 | a leading "จ." is removed and nothing else; without it the word is unchanged |
| AddressTokens.ExtractProvince | builder/build.py:161-167 | the second word from the end without "จ." |
| AddressTokens.DistrictName | builder/build.py:173-180 | the first matching designator of "อ.", "เขต", "อำเภอ" is removed; otherwise the word is unchanged |
| AddressTokens.ExtractDistrict | builder/build.py:170-180 | the third word from the end without its designator |
| AddressTokens.After | builder/build.py:195-203 | the text after the first occurrence of the searched word |
| AddressTokens.SubdistrictName | builder/build.py:189-205 | the result is a suffix of the word |
| AddressTokens.ExtractSubdistrict | builder/build.py:183-205 | the fourth word from the end, or "" for three words or fewer, reduced by the designator rules |
| AddressTokens.AddressWords | builder/build.py:162 | an address written with single spaces splits back into its words |
| AddressTokens.ProvinceRoundTrip | build.py:132-138 | "จ.<name>" in the province slot is read back as the name |
| AddressTokens.DistrictRoundTrip | build.py:141-151 | "อ."/"เขต"/"อำเภอ" + name in the district slot is read back as the name |
| AddressTokens.SubdistrictRoundTrip | build.py:154-176 | "ต."/"แขวง"/"ตำบล" + name in the subdistrict slot is read back as the name |
| AddressTokens.DesignatedSubdistrictName | builder/build.py:189-194 | a leading designator is all that is removed |
| AddressTokens.UndesignatedSubdistrictKept | builder/build.py:195-205 | a word with no designator anywhere is returned whole |
| AddressTokens.EmbeddedMarkSubdistrict | builder/build.py:195-197 | a word with "ต." inside gives the text after its first occurrence |
| AddressTokens.FirstOccurrenceAfter | builder/build.py:195-203 | a designator placed right after text that does not hold it is found there, when its first character does not recur in it |
| AddressTokens.EmbeddedKhwaengSubdistrict | builder/build.py:198-200 | a word with "แขวง" inside and no "ต." gives the text after its first "แขวง" |
| AddressTokens.EmbeddedTambonSubdistrict | builder/build.py:201-203 | a word with "ตำบล" inside and neither "ต." nor "แขวง" gives the text after its first "ตำบล" |
| AddressTokens.LastZipWindowFrom | builder/build.py:157 | the greatest start of five digits at or below the bound, with no line break before it |
| AddressTokens.ExtractZip | builder/build.py:156-158 | the last window of five digits that no line break precedes, which the greedy `.*` selects |
| AddressTokens.ZipRoundTrip | build.py:127-129 | an address of one line ending in a five-digit word gives that word |
| Strings.StripStart | builder/build.py:111 | the result is a suffix, only whitespace is removed, and it does not start with whitespace |
| Strings.StripEnd | builder/build.py:111 | the result is a prefix, only whitespace is removed, and it does not end with whitespace |
| Strings.Strip | builder/build.py:111 | the result is empty exactly when the text is all whitespace, it is trimmed, and text already trimmed is unchanged |
| Strings.StripStartOfSpaces | builder/build.py:111 | leading whitespace before a non-space start is removed exactly |
| Strings.StripEndOfSpaces | builder/build.py:111 | trailing whitespace after a non-space end is removed exactly |
| Strings.StripOfPadded | builder/build.py:111 | padding around a trimmed text is removed exactly |
| Strings.Drop | builder/build.py:116 | `s[n:]`: what follows the first `n` characters, empty past the end |
| Strings.Take | builder/build.py:134 | `s[:n]`: a prefix of length `min(n, len(s))` |
| Strings.IndexOf | builder/build.py:162 | the first position of the character, or the length when it is absent |
| Strings.Find | builder/build.py:195 | `str.find`: -1 exactly when the word does not occur, otherwise its first occurrence |
| Strings.Split | builder/build.py:162 | `split(c)` gives one more piece than there are separators, none containing the separator |
| Strings.JoinOfSplit | builder/build.py:162 | joining the pieces gives back the text |
| Strings.SplitOfJoin | builder/build.py:162 | splitting a join of separator-free pieces gives back the pieces |
| Strings.SplitMax | builder/build.py:394 | `split(c, n)` splits at most `n` times, and all pieces but the last are free of the separator |
| Strings.SplitMaxOfOne | builder/build.py:394 | text without the separator is one piece |
| Strings.SplitMaxOfTwo | builder/build.py:394 | `a=b` splits into `[a, b]` |
| Strings.SplitMaxOfThree | builder/build.py:394 | `a=b=d` splits into `[a, b, d]` when two splits are allowed |
| Strings.CountSplit | builder/build.py:397 | the count of separators goes down by one past the first separator |
| Strings.LowerChar | builder/build.py:395 | ASCII capitals map to small letters, and characters other than capitals and U+212A are unchanged |
| Strings.Lower | builder/build.py:395 | `lower()` maps character by character and keeps the length |
| Lists.MapSeq | src/index.ts:32 | `_.map`: same length, element-wise image |
| Lists.Filter | src/index.ts:24 | `_.filter`: every element kept satisfies the predicate |
| Lists.FilterMembers | src/index.ts:24 | the kept elements are exactly those satisfying the predicate, each as often as in the input |
| Lists.FilterAppend | src/index.ts:24 | filtering distributes over concatenation, so order is kept |
| Lists.FilterNone | src/index.ts:28 | nothing is kept exactly when no element satisfies the predicate |
| Lists.FilterFirst | src/index.ts:28 | the first element kept is the first one that satisfies the predicate |
| Lists.Head | src/index.ts:28 | `_.head`: nothing for the empty list, otherwise the first element |
| Lists.FirstWithKey | src/index.ts:36-39 | the first element with that key has the key and is in the list |
| Lists.UniqByKeeps | src/index.ts:36-39 | `_.uniqBy`: keys are distinct, the same keys occur, and an element is kept exactly when it is the first with its key |
| Lists.LessEqTotal | src/index.ts:32 | the string order is total |
| Lists.LessEqTrans | src/index.ts:32 | the string order is transitive |
| Lists.LessEqAntisymmetric | src/index.ts:32 | the string order is antisymmetric |
| Lists.Insert | src/index.ts:32 | inserting adds exactly the one element |
| Lists.SortBy | src/index.ts:32 | `_.sortBy` is a permutation of its input |
| Lists.SortBySorted | src/index.ts:32 | the result of `_.sortBy` is ascending by the key |
| Lists.SortByStable | src/index.ts:43 | the sort is stable: elements with equal keys keep their input order |
| Lists.SortByDistinct | src/index.ts:43 | sorting keeps distinct codes distinct |
| Lists.SortByMembers | src/index.ts:32 | sorting keeps exactly the same elements |
| Lists.UniqSorted | src/index.mjs:20-25 | deduplicating by one key and sorting by another gives a list sorted by the second key, with distinct first keys, holding exactly the first element for each first key |
| ThaiAddr.FindByZip | src/index.ts:23-25 | exactly the records with that postal code, each as often as in the list |
| ThaiAddr.FindByZipInOrder | src/index.mjs:8-10 | the records found keep their order in the list |
| ThaiAddr.FindBySubdistrictCode | src/index.ts:27-29 | nothing exactly when no record has the code; otherwise a record of the list with that code |
| ThaiAddr.FindsFirst | src/index.ts:27-29 | the record found is the first one carrying the code |
| ThaiAddr.FindAllBySubdistrictCode | src/index.mjs:12-14 | exactly the records with that code, each as often as in the list |
| ThaiAddr.FindAllBySubdistrictCodeInOrder | src/index.mjs:12-14 | the records found keep their order in the list, unlike the single record the `.ts` lookup returns |
| ThaiAddr.SubdistrictLookupsAgree | src/index.mjs:12-14 | the `.ts` lookup is the head of the `.mjs` list, and finds nothing exactly when that list is empty |
| ThaiAddr.ZipsAscending | src/index.ts:31-33 | the postal codes are strictly ascending: sorted and without repeats |
| ThaiAddr.ZipsComplete | src/index.mjs:16-18 | a postal code is listed exactly when some record has it |
| ThaiAddr.ProvincesListing | src/index.ts:35-40 | sorted by name, codes distinct, and an entry is listed exactly when it is the first `{name, code}` seen for its code; entries with equal names keep the order in which their codes were first seen |
| ThaiAddr.InProvince | src/index.mjs:28 | exactly the records of the province |
| ThaiAddr.DistrictsListing | src/index.ts:42-47 | within the province: sorted by name, codes distinct, and an entry is listed exactly when it is the first record seen for its district code; entries with equal names keep the order in which their codes were first seen |
| ThaiAddr.InDistrict | src/index.mjs:35 | exactly the records of the district |
| ThaiAddr.SubdistrictsListing | src/index.ts:49-54 | within the district: sorted by name, codes distinct, and an entry is listed exactly when it is the first record seen for its subdistrict code; entries with equal names keep the order in which their codes were first seen |
| Lists.WithKeyMap | src/index.mjs:34-39 | picking the elements with one name commutes with the projection to `{name, code}` |
| ThaiAddr.MiniListing | src/index.mjs:34-39 | projecting to `{name, code}` keeps the order, the distinct codes and the entries |

## Left out

- HTTP fetching, file output, JSON export and templating are I/O, cache-busting randomness and `jsmin`: `fetch_tumbon_resource`, `fetch_zip_resource`, `get_recently_published_data_version`, `export`, `apply_template`.
- Reading the XML postal-code table (`extract_descriptive_zip`, `extract_row_zip`) depends on ElementTree nodes. Only the cell parser it calls is modelled.
- Excel reading and validation (`parse_tumbon_resource`) is pandas I/O. The tree builder takes its rows (code and name as strings) as a parameter.
- All `logging` calls and the `__main__` drivers are side effects with no effect on results.
- The legacy regex parser `extract_exceptional_zips` in `build.py` relies on the `regex` module's repeated captures. It is superseded by the builder's parser.
- `extract_address` only concatenates the four tokenisers' results.
- The `example/` demos print to the console.
- The record list of the query layer is a template placeholder in the source. Here it is a parameter of every query. No query changes it.
- Strings.Lower: only A–Z and the Kelvin sign U+212A are lowered. These are the only characters whose Python lower-case form is an ASCII letter, apart from U+0130, whose two-character lower-case form cannot equal any of the option names. So comparisons with "check", "prod", "log", "true" and the log levels come out as in Python. Other characters are left unchanged, which is not Python's full Unicode case mapping.
- Lists.LessEq: JavaScript compares strings by UTF-16 code unit, the model by code point. The two orders agree on the Basic Multilingual Plane, which holds all of Thai.
- ExceptionClauses.RemovePostOfficeNoise: its own contract only bounds the length. What it deletes and keeps is stated by the lemmas beside it (`KeepsFirst`, `DropsLeading`, `NoNoiseUnchanged` and the examples). One left-to-right pass is not idempotent (`NoiseRemovalNotIdempotent`). Deleting an annotation can also join two halves of "ยกเว้น", so a cell can gain the marker by the deletion.
- AddressTokens.SubdistrictName: its own contract only says the result is a suffix. The designator rules are stated by `DesignatedSubdistrictName`, `EmbeddedMarkSubdistrict`, `EmbeddedKhwaengSubdistrict`, `EmbeddedTambonSubdistrict`, `UndesignatedSubdistrictKept` and the round trip. The embedded-"แขวง" and embedded-"ตำบล" lemmas need the text before the designator not to hold it, which covers every first occurrence.
- `provinces()` in `src/index.ts` is declared to return `string[]` but returns `{name, code}` objects. The model follows what it returns.
- `\d` and `\s` are modelled as Python's tables (Unicode decimal digits, `str.isspace`). `.` in a pattern is modelled as any character but a line break.

