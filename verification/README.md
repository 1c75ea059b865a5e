# CARSKit core, modelled in Dafny

CARSKit is a Java toolkit for context-aware recommendation. A rating is
given by a user to an item in a context situation: a set of conditions,
at most one per context dimension ("time:weekend", "location:home"). This
project models the toolkit's data layer and the deterministic rules built
on it as pure functions over sequences and maps, with reals standing for
doubles. Everything random or external is a parameter.

- **Data loading and identifiers** (`DataDAO`, `Registries`, `DataLookups`,
  `DataViews`, `SparseMatrices`, `Text`): the binary rating format is read
  into a contextual matrix. Its rows are user-item pairs and its columns are
  situations. Users, items, pairs, dimensions, conditions and situations get
  dense ids in first-seen order. A situation's key is the ascending
  comma-joined list of its condition offsets. The lookups and derived views
  are the ones the recommenders query: user and item lists, per-situation
  lists, the collapsed user x item matrix, context averages and the rating
  scale.
- **Format conversion** (`DataTransformer`, `CARSKit`): loose and compact
  files are rewritten into the binary format, with a one-hot header and
  indicator rows. A file's format is recognised from its first two lines.
- **Evaluation** (`DataSplitter`, `Recommender`, `Rankings`, `Measures`,
  `CARSKit`):
  - balanced k-fold labelling and ratio splitting, driven by given random draws;
  - bounded prediction and NaN-skipping error sums;
  - the candidate, ground-truth and items-filter rules of ranking evaluation;
  - top-N cuts and cutoff maps;
  - fold averaging and recommender dispatch.
- **Context matching** (`DCR`, `DCW`, `HybridFiltering`, `ItemSplitting`):
  - masked condition equality and weighted situation similarity;
  - splitting of the position vector and loading of a supplied solution;
  - t-test-driven item splitting, with the t-test as a parameter.
- **Predictors**: the six average baselines (`Averages`), `UserKNN` and
  `ItemKNN` (`KNN`), `SlopeOne`, `ExactFiltering`, and `Chen1` and `Chen2`
  (`Chen`), including their fallback rules, neighbour selection and
  similarity cache.

Java behaviour the model keeps explicit:
- exceptions, as `Result` errors: a null unboxed, an index out of bounds, a number that does not parse;
- NaN and the infinities, where they change control flow (`Doubles.Double`);
- integer division that truncates toward zero;
- 32-bit parsing bounds.

## Model

| member | source | states |
|---|---|---|
| Averages.MeanOrBounds | src/carskit/alg/baseline/avg/UserAverage.java:46-49 | the mean of a non-empty row or column is a number within the range of its ratings |
| Averages.GlobalAverageMeaning | src/carskit/alg/baseline/avg/GlobalAverage.java:39-45 | GlobalAverage predicts the same value for every user, item and situation: the mean of all training ratings, within their range |
| Averages.UserAverageMeaning | src/carskit/alg/baseline/avg/UserAverage.java:40-49 | the item does not matter; a user without ratings gets globalMean; a user with ratings gets a number within the range of their ratings |
| Averages.ItemAverageMeaning | src/carskit/alg/baseline/avg/ItemAverage.java:41-50 | the user does not matter; an unrated item gets globalMean; a rated item gets a number within the range of its ratings |
| Averages.UserItemAverageOfPair | src/carskit/alg/baseline/avg/UserItemAverage.java:47-51 | on the collapsed user x item matrix, a rated pair is predicted by the mean of its ratings across situations, within their range |
| Averages.UserItemAverageOfUnrated | src/carskit/alg/baseline/avg/UserItemAverage.java:47-51 | a (user, item) that no rated pair stands for is predicted by globalMean |
| Averages.UserContextAverage | src/carskit/alg/baseline/avg/UserContextAverage.java:41-46 | succeeds exactly when getUserContextAvg does (its error propagates) |
| Averages.ContextAverage | src/carskit/alg/baseline/avg/ContextAverage.java:40-43 | succeeds exactly when getContextAvg does, and is then a number |
| Averages.UserContextAverageMeaning | src/carskit/alg/baseline/avg/UserContextAverage.java:41-46 | the item does not matter; the result is globalMean or within the ratings' range; a user with no rating in a stored situation gets globalMean |
| Averages.ContextAverageMeaning | src/carskit/alg/baseline/avg/ContextAverage.java:40-43 | the user and item do not matter; the result is 0 or within the ratings' range; it is 0, not globalMean, when no condition of the situation has a rating |
| SparseMatrices.GlobalAvg | src/carskit/data/structure/SparseMatrix.java:49-56 | the mean of the stored ratings is NaN exactly for a matrix with no stored cell, and the sum over the size otherwise |
| SparseMatrices.GlobalAvgCached | src/carskit/data/structure/SparseMatrix.java:49-56 | the cached mean is reused unless it is exactly 0, in which case it is recomputed; the value returned is the value kept |
| SparseMatrices.GlobalAvgCachedStable | src/carskit/data/structure/SparseMatrix.java:49-56 | asking twice for the mean of an unchanged matrix gives the same value |
| SparseMatrices.Average | src/carskit/data/structure/SparseMatrix.java:58-77 | getAverage is 0 exactly when none of the listed rows holds a cell, and otherwise the sum over the count of the listed rows' cells, a row listed twice counting twice |
| SparseMatrices.AverageBounds | src/carskit/data/structure/SparseMatrix.java:58-77 | a non-empty average lies within the range of the stored ratings |
| Registries.Intern | src/carskit/data/processor/DataDAO.java:197-198 | a known key keeps its id and leaves the registry unchanged; a new key gets the next id, the number of keys registered before it |
| Registries.InternAllExtends | src/carskit/data/processor/DataDAO.java:196-206 | registering keys only appends: the old inverse view is a prefix of the new one, and the keys afterwards are the old ones and those seen |
| Registries.InternAllKeepsIds | src/carskit/data/processor/DataDAO.java:196-206 | every key registered before keeps its id, and a newly registered key gets an id past all old ones |
| Registries.InternAllFirstSeenOrder | src/carskit/data/processor/DataDAO.java:196-206 | among new keys, the one seen first gets the smaller id, and conversely |
| Registries.BiPut | src/carskit/data/processor/DataDAO.java:172 | BiMap.put fails exactly when the value is already bound to another key; otherwise the forward map gets the binding and stays a bijection |
| DataDAO.DimensionOfCases | src/carskit/data/processor/DataDAO.java:166-169 | the column is trimmed before it is split on ':'; a column without a colon names its own trimmed dimension; the dimension lookup fails exactly when the trimmed column splits into no field, as ":" and " :" do |
| DataDAO.ReadColumn | src/carskit/data/processor/DataDAO.java:166-175 | reading one header column fails exactly when it has no dimension or its offset is bound to another name; otherwise the dimension is registered, condIds binds the name to the offset, and the offset is listed under its dimension and mapped to it |
| DataDAO.ReadHeaderErrors | src/carskit/data/processor/DataDAO.java:163-179 | a header is read only if every column names a dimension; on a fresh store every such header is read; condIds then binds only offsets of this header |
| DataDAO.ReadHeaderIndexes | src/carskit/data/processor/DataDAO.java:166-174 | every offset of the header gets a dimension, and dimIds is the given registry with the columns' dimensions registered in order |
| DataDAO.EmptyConditions | src/carskit/data/processor/DataDAO.java:176-178 | EmptyContextConditions holds, in ascending order, exactly the offsets whose column name ends with ":na" |
| DataDAO.SituationOf | src/carskit/data/processor/DataDAO.java:216-229 | a line's situation is defined exactly when every condition field parses as an integer, and is then the ascending list of the offsets whose field is 1 |
| DataDAO.ParseLines | src/carskit/data/processor/DataDAO.java:182-229 | the lines are read exactly when every line's condition fields parse, and each row is then its own line's parse |
| DataDAO.AddPair | src/carskit/data/processor/DataDAO.java:196-214 | the user, item and pair are registered, the pair's key is "user,item" of the inner ids, the pair maps back to both, and the rated lists stay consistent |
| DataDAO.AddSituation | src/carskit/data/processor/DataDAO.java:230-238 | the situation key (the condition offsets joined by commas) is registered; the situation id maps to its condition list, and condContextsList stays its inverse |
| DataDAO.LoadRowEffect | src/carskit/data/processor/DataDAO.java:186-243 | one line sets its (pair, situation) cell to its rating, overwriting an earlier rating of that cell; every other cell keeps its value; the rating joins scaleDist even if it is a duplicate |
| DataDAO.LoadRowsCounts | src/carskit/data/processor/DataDAO.java:182-248 | numRatings counts every line read, while the matrix grows by at most one cell per line |
| DataDAO.LoadRowsRegistries | src/carskit/data/processor/DataDAO.java:196-201 | userIds and itemIds after reading are the given registries with the lines' users and items registered in order of first appearance |
| DataDAO.ReadData | src/carskit/data/processor/DataDAO.java:147-261 | readData succeeds exactly when the header is read and every line parses, and the result is a consistent store: registries one-to-one and every stored cell on a registered pair and situation |
| DataDAO.ReadDataMeaning | src/carskit/data/processor/DataDAO.java:163-248 | after a successful read scaleDist counts every line, EmptyContextConditions is the header's ":na" offsets, and userIds, itemIds and dimensions hold the keys known before with the lines' users and items and the header's dimensions registered after them in order |
| DataDAO.ReadDataContents | src/carskit/data/processor/DataDAO.java:182-240 | every line read gets a (pair, situation) cell, and dataTable holds a cell exactly when some line lands in it |
| DataDAO.ReadDataLastWins | src/carskit/data/processor/DataDAO.java:182-240 | the cell of a line with no later line for the same user, item and situation holds that line's rating: dataTable.put lets the last line win |
| DataDAO.ReadDataKeys | src/carskit/data/processor/DataDAO.java:194-232 | every line's user and item are registered, uiIds is the given registry with the lines' "user,item" keys registered in line order, and ctxIds likewise with the lines' situation keys |
| DataDAO.LoadRowsCells | src/carskit/data/processor/DataDAO.java:182-240 | from any starting store, each loaded line can be read back to a (pair, situation) cell through the final registries |
| DataDAO.LoadRowsStored | src/carskit/data/processor/DataDAO.java:182-240 | from any starting matrix, a cell is stored after loading exactly when it was stored before or some loaded line lands in it |
| DataDAO.LoadRowsUntouched | src/carskit/data/processor/DataDAO.java:182-240 | a cell no loaded line lands in keeps its earlier rating |
| DataDAO.LoadRowsLastWins | src/carskit/data/processor/DataDAO.java:182-240 | the cell of the last line for a user, item and situation holds that line's rating |
| DataDAO.LoadRowsKeys | src/carskit/data/processor/DataDAO.java:194-232 | loading registers every line's user and item, and grows uiIds and ctxIds by the lines' pair and situation keys in line order |
| DataDAO.CellOfInjective | src/carskit/data/processor/DataDAO.java:194-232 | in a consistent store two lines that read back to the same cell are about the same user, item and situation |
| DataDAO.DuplicateLineOverwrites | src/carskit/data/processor/DataDAO.java:182-248 | two lines with the same user, item and situation leave one cell holding the later rating, while both ratings are counted |
| DataLookups.RawId | src/carskit/data/processor/DataDAO.java:486-488 | getUserId(String) and its kin succeed exactly for a registered name, whose inner id names it back; an unknown name is a NullPointerException |
| DataLookups.UserItemIdOfKey | src/carskit/data/processor/DataDAO.java:531-536 | getUserItemId(String) is -1 exactly for an unregistered key, and otherwise an id whose key it is |
| DataLookups.UserItemId | src/carskit/data/processor/DataDAO.java:545-550 | getUserItemId(user, item) succeeds exactly when both raw names are registered, and then looks up the key "u,i" of their inner ids |
| DataLookups.UserIdFromUI | src/carskit/data/processor/DataDAO.java:290-291 | the user of a pair id exists exactly for a registered pair and is a registered user |
| DataLookups.ItemIdFromUI | src/carskit/data/processor/DataDAO.java:290-291 | the item of a pair id exists exactly for a registered pair and is a registered item |
| DataLookups.PairRoundTrip | src/carskit/data/processor/DataDAO.java:531-550 | a registered pair id is found again from its user and item, through the key and through the raw names |
| DataLookups.PairsDistinct | src/carskit/data/processor/DataDAO.java:203-214 | two different pair ids stand for two different (user, item) pairs |
| DataLookups.ConditionIds | src/carskit/data/processor/DataDAO.java:631-633 | looking up condition names succeeds exactly when every name is registered, giving each one's id in order; otherwise a NullPointerException |
| DataLookups.ContextIdOfNames | src/carskit/data/processor/DataDAO.java:656-668 | a situation named by its conditions is the registered situation whose key is their ids in ascending order, each once |
| DataLookups.ContextId | src/carskit/data/processor/DataDAO.java:653-672 | a raw id without a colon is looked up as a situation key; one with a colon is lower-cased, split at commas, trimmed and looked up by condition names |
| DataLookups.ContextIdOrderInsensitive | src/carskit/data/processor/DataDAO.java:656-668 | the order and the repetition of the condition names do not change the situation found |
| DataLookups.ContextIdOfSituation | src/carskit/data/processor/DataDAO.java:656-668 | naming exactly the conditions of a stored situation finds that situation |
| DataLookups.SortedDistinct | src/carskit/data/processor/DataDAO.java:658-667 | the TreeSet walk gives the ids in strictly ascending order, exactly the ids given |
| DataLookups.Conditions | src/carskit/generic/ContextRecommender.java:53-61 | getConditions of an unknown situation is a NullPointerException; of a known one, it succeeds exactly when its key parses as a comma-separated list of integers |
| DataLookups.ConditionsRoundTrip | src/carskit/generic/ContextRecommender.java:53-61 | getConditions gives back the condition list recorded when the situation was loaded; only the empty situation fails, with NumberFormatException |
| DataLookups.SituationNames | src/carskit/data/processor/DataDAO.java:687-696 | getContextSituationFromInnerId succeeds exactly when the key parses, and joins the conditions' names with semicolons |
| DataLookups.SituationNamesOfStored | src/carskit/data/processor/DataDAO.java:687-696 | a stored non-empty situation gets the names of its recorded conditions, in ascending id order |
| DataViews.RowsRegisteredMeaning | src/carskit/data/processor/DataDAO.java:772-780 | in a consistent store, getUserIdFromUI and getItemIdFromUI succeed for every row of a matrix exactly when every row is a numbered pair id |
| DataViews.UserCtxList | src/carskit/data/processor/DataDAO.java:822-873 | getUserCtxList (with or without a rating threshold) fails exactly when some row is not a registered pair |
| DataViews.UserCtxListMembers | src/carskit/data/processor/DataDAO.java:822-873 | item i is listed for user u under situation c exactly when some stored cell rates i by u in c (above the threshold, when one is given) |
| DataViews.UserCtxListNoEmpty | src/carskit/data/processor/DataDAO.java:822-873 | every user and every situation that is keyed has something listed under it |
| DataViews.UserList | src/carskit/data/processor/DataDAO.java:953-961 | getUserList fails exactly when some row is not a registered pair |
| DataViews.ItemList | src/carskit/data/processor/DataDAO.java:944-952 | getItemList fails exactly when some row is not a registered pair |
| DataViews.UserListAgrees | src/carskit/data/processor/DataDAO.java:822-961 | the users of getUserList are exactly the users keyed in getUserCtxList |
| DataViews.ItemListAgrees | src/carskit/data/processor/DataDAO.java:822-952 | the items of getItemList are exactly those getUserCtxList lists for some user in some situation |
| DataViews.RatedItems | src/carskit/data/processor/DataDAO.java:933-942 | getRatedItemsList fails exactly when one of the user's pairs with a stored cell has no item |
| DataViews.RatedItemsAgree | src/carskit/data/processor/DataDAO.java:933-942 | in a consistent store the user's rated items are found, and they are exactly the items getUserCtxList lists for that user |
| DataViews.RatingCountByItem | src/carskit/data/processor/DataDAO.java:993-999 | the count never exceeds the number of stored cells |
| DataViews.RatingCountIsItemCells | src/carskit/data/processor/DataDAO.java:993-999 | the count is the number of stored cells whose pair is of the item, over all users and situations |
| DataViews.ToTraditional | src/carskit/data/processor/DataDAO.java:975-991 | toTraditionalSparseMatrix fails exactly when some row is not a registered pair, and otherwise gives a matrix with one value per cell |
| DataViews.PairsInjectiveOfValid | src/carskit/data/processor/DataDAO.java:203-214 | in a consistent store distinct pair ids are distinct (user, item) cells |
| DataViews.RowMeansValues | src/carskit/data/processor/DataDAO.java:980-988 | each user-item cell holds the mean of its own pair's row, never overwritten by another pair's |
| DataViews.ToTraditionalCells | src/carskit/data/processor/DataDAO.java:975-991 | the user x item matrix has a cell exactly for the (user, item) of each row with a stored rating, holding that row's mean |
| DataViews.ContextAverage | src/carskit/data/processor/DataDAO.java:1001-1107 | an unknown situation id is a NullPointerException; otherwise the average fails exactly when a field of the situation key is not an integer, except that the lazy variants over no cells give 0 |
| DataViews.UserContextAvg | src/carskit/data/processor/DataDAO.java:1001-1035 | with a malformed situation key, getUserContextAvg fails exactly when the user has a stored rating |
| DataViews.ItemContextAvg | src/carskit/data/processor/DataDAO.java:1037-1071 | with a malformed situation key, getItemContextAvg fails exactly when the item has a stored rating |
| DataViews.ContextAvg | src/carskit/data/processor/DataDAO.java:1073-1107 | for a known situation id, getContextAvg succeeds exactly when every field of the situation key is an integer |
| DataViews.CondCellsMeaning | src/carskit/data/processor/DataDAO.java:1011-1017 | the cells summed for a condition are exactly the cells rated in a situation that holds it |
| DataViews.AveragedCellsMeaning | src/carskit/data/processor/DataDAO.java:1002-1009 | the user variant averages exactly the user's stored ratings, the item variant exactly the item's |
| DataViews.ContextAverageOfStored | src/carskit/data/processor/DataDAO.java:1073-1107 | for a stored situation with at least one condition, the average is the mean over its recorded conditions of the per-condition means |
| DataViews.EmptySituationAverage | src/carskit/data/processor/DataDAO.java:1001-1107 | the situation with no condition (key "") makes getContextAvg throw NumberFormatException, and the user and item variants throw it exactly when there is a cell |
| DataViews.ContextAverageAsWritten | src/carskit/data/processor/DataDAO.java:1001-1003 | the three context averages as written: before getContextId(int) has built idCtx they throw NullPointerException, afterwards they agree with the intended average |
| DataViews.FreshStoreAverageThrows | src/carskit/data/processor/DataDAO.java:678-685 | on a fresh store a stored situation with conditions makes the written averages throw, while the intended average succeeds |
| DataViews.ContextAverageBounds | src/carskit/data/processor/DataDAO.java:1021-1034 | a context average is 0 or lies within the range of the averaged ratings |
| DataViews.RatingScale | src/carskit/data/processor/DataDAO.java:249-250 | ratingScale is strictly increasing and holds exactly the distinct ratings read |
| DataViews.ScaleMax | src/carskit/data/processor/DataDAO.java:788 | Collections.max fails exactly on an empty scale and otherwise is a member no smaller than any other |
| DataViews.ScaleMin | src/carskit/data/processor/DataDAO.java:794 | Collections.min fails exactly on an empty scale and otherwise is a member no larger than any other |
| DataViews.RatingMax | src/carskit/data/processor/DataDAO.java:785-790 | getRatingMax returns the largest rating, from the cache or computed and cached, and leaves the cache sound |
| DataViews.RatingMinAsWritten | src/carskit/data/processor/DataDAO.java:791-796 | as written, once MaxRate is set getRatingMin returns MinRate unchanged, even if it is still the unset marker |
| DataViews.RatingMinAsWrittenAfterMax | src/carskit/data/processor/DataDAO.java:785-796 | after getRatingMax on ratings {1, 5}, getRatingMin as written answers -1 although the smallest rating is 1 |
| DataViews.RatingMin | src/carskit/data/processor/DataDAO.java:791-796 | getRatingMin testing MinRate returns the smallest rating and leaves the cache sound |
| DataViews.RatingMinAfterMax | src/carskit/data/processor/DataDAO.java:785-796 | with the corrected test, asking for the maximum first leaves the minimum right: the first and last entries of the sorted scale |
| DataTransformer.InsertSortedAscending | src/carskit/data/processor/DataTransformer.java:60 | inserting a new condition into a TreeMultimap's value set keeps it strictly ascending |
| DataTransformer.PutFits | src/carskit/data/processor/DataTransformer.java:102 | Multimap.put keeps the dimensions distinct (and sorted for a TreeMultimap), and the dimensions afterwards are the old ones plus the one put |
| DataTransformer.PutGet | src/carskit/data/processor/DataTransformer.java:102 | after put(d, c) the conditions of d are the old ones with c inserted, and every other dimension keeps its conditions |
| DataTransformer.PutLinkedKeepsOrder | src/carskit/data/processor/DataTransformer.java:166 | a LinkedHashMultimap keeps its dimensions in first-insertion order: the old order is a prefix of the new |
| DataTransformer.PutAllMembers | src/carskit/data/processor/DataTransformer.java:100-103 | after a run of puts, a dimension holds a condition exactly when it held it before or the pair was put |
| DataTransformer.PutAllDims | src/carskit/data/processor/DataTransformer.java:100-103 | after a run of puts, the dimensions are the old ones and those of the pairs put |
| DataTransformer.PutAllAppend | src/carskit/data/processor/DataTransformer.java:61-84 | putting the training pairs and then the test pairs is putting their concatenation |
| DataTransformer.CompleteNAMeaning | src/carskit/data/processor/DataTransformer.java:86-91 | adding "na" keeps the multimap well formed and its dimensions, adds "na" to every dimension and no other condition |
| DataTransformer.AddNAIdle | src/carskit/data/processor/DataTransformer.java:86-91 | adding "na" changes nothing for dimensions that already hold it |
| DataTransformer.NormIsLowerTrim | src/carskit/data/processor/DataTransformer.java:102 | the normalisation of a field is its trimmed text lower-cased |
| DataTransformer.Cell | src/carskit/data/processor/DataTransformer.java:111-113 | a loose or compact condition cell is never empty: a blank cell reads as "na", any other as its normalised text |
| DataTransformer.GetConditionsMeaning | src/carskit/data/processor/DataTransformer.java:57-93 | the collected conditions are sorted, every dimension holds "na", and the multimap holds exactly the pairs read from the two files plus those "na" conditions |
| DataTransformer.HeaderColumns | src/carskit/data/processor/DataTransformer.java:140-148 | the header split at commas is "User", " Item", " Rating" and then one "dim:cond" column per pair of the multimap, in iteration order |
| DataTransformer.HeaderRoundTrip | src/carskit/data/processor/DataTransformer.java:95-148 | reading a written header back as binary data gives exactly the multimap's pairs, for names without separators, blanks or upper case |
| DataTransformer.RebuildFromPairs | src/carskit/data/processor/DataTransformer.java:140-148 | putting a well-formed multimap's pairs, in header order, into an empty one rebuilds it |
| DataTransformer.ConditionsFromWrittenHeader | src/carskit/data/processor/DataTransformer.java:57-148 | the conditions collected from a file written under a complete sorted multimap, with a test file adding nothing, are that multimap |
| DataTransformer.LooseBitsMeaning | src/carskit/data/processor/DataTransformer.java:292-311 | in loose mode an NA record sets exactly the "na" columns; any other sets only the first column equal to its condition |
| DataTransformer.StrictBitsMeaning | src/carskit/data/processor/DataTransformer.java:312-317 | in non-loose mode a column is set exactly when it equals the record's condition |
| DataTransformer.LooseAgreesWithStrict | src/carskit/data/processor/DataTransformer.java:292-317 | for a record with a value and distinct conditions, the loose and non-loose encodings agree |
| DataTransformer.BlockMeaning | src/carskit/data/processor/DataTransformer.java:280-318 | loose mode never fails and non-loose mode fails exactly on a missing dimension; a column is set exactly when it is the record's condition, or "na" for a record without one |
| DataTransformer.BlockOneHot | src/carskit/data/processor/DataTransformer.java:280-318 | a dimension's block has at most one 1, and has one exactly when the record's condition (or "na") is among the dimension's conditions |
| DataTransformer.EncodeRecordMeaning | src/carskit/data/processor/DataTransformer.java:276-320 | a record's indicators line up with the header: one per (dimension, condition) pair, set exactly when the record holds that condition; non-loose encoding fails exactly when the record lacks a dimension |
| DataTransformer.OutputKeyOfLine | src/carskit/data/processor/DataTransformer.java:321-323 | a key of more than three fields is written as its trimmed, lower-cased user, item and rating |
| DataTransformer.OutputKeyOfLoose | src/carskit/data/processor/DataTransformer.java:203-323 | a loose key is written unchanged, and is the trimmed, lower-cased user, item and rating of its line |
| DataTransformer.OutputLineFields | src/carskit/data/processor/DataTransformer.java:325 | a written line splits into the key's fields followed by one "1" or "0" per indicator |
| DataTransformer.MergeKeys | src/carskit/data/processor/DataTransformer.java:201-218 | loose lines give one record per distinct key, holding exactly the dimensions its lines name |
| DataTransformer.MergeLast | src/carskit/data/processor/DataTransformer.java:209-217 | a record's condition for a dimension is that of the last line naming it |
| DataTransformer.CompactContextMeaning | src/carskit/data/processor/DataTransformer.java:244-252 | a compact record has exactly the header's dimensions, each with a non-empty condition |
| DataTransformer.CompactContextLast | src/carskit/data/processor/DataTransformer.java:244-252 | a compact record's condition for a dimension is the normalised cell of its last column of that name |
| DataTransformer.CompactRecordsMeaning | src/carskit/data/processor/DataTransformer.java:242-254 | the records of a compact file are keyed by its distinct lines, each holding its own line's context, and fail exactly when collecting its conditions fails |
| DataTransformer.BinaryContextPairs | src/carskit/data/processor/DataTransformer.java:170-181 | every pair a binary line sets is one of the header's (dimension, condition) columns |
| DataTransformer.BinaryRecordsPairs | src/carskit/data/processor/DataTransformer.java:167-183 | every pair a binary file sets is one of its header's columns |
| DataTransformer.PublishOk | src/carskit/data/processor/DataTransformer.java:266-329 | a loose file is always written; a binary or compact one exactly when every record has every dimension of the multimap |
| DataTransformer.PublishLine | src/carskit/data/processor/DataTransformer.java:276-326 | each record gets a line: its key followed by its indicators under the header's columns |
| DataTransformer.PublishMeaning | src/carskit/data/processor/DataTransformer.java:266-329 | a written file has the multimap's header and one line per record, holding the record's indicators |
| DataTransformer.TransformKeepsShared | src/carskit/data/processor/DataTransformer.java:150-264 | reading a training file against a multimap already holding all its pairs leaves the multimap unchanged |
| DataTransformer.EmitHeader | src/carskit/data/processor/DataTransformer.java:266-272 | a written file carries the header of the multimap it was read against |
| DataTransformer.RunSharesHeader | src/carskit/data/processor/DataTransformer.java:332-396 | with a test file, both written files carry the header of the conditions collected from both files |
| DataSplitter.NumFold | src/carskit/data/processor/DataSplitter.java:108 | numFold is the requested number of folds, or the number of ratings when that is smaller |
| DataSplitter.Labels | src/carskit/data/processor/DataSplitter.java:113-118 | one fold label per rating, each between 1 and numFold |
| DataSplitter.FoldSize | src/carskit/data/processor/DataSplitter.java:113-118 | every fold label is given to n / numFold or n / numFold + 1 ratings |
| DataSplitter.FoldsBalanced | src/carskit/data/processor/DataSplitter.java:110-118 | any two folds differ in size by at most one |
| DataSplitter.LabelsOfPermutation | src/carskit/data/processor/DataSplitter.java:120 | sorting the (draw, label) pairs by draw permutes the labels |
| DataSplitter.Shuffle | src/carskit/data/processor/DataSplitter.java:120 | the labels reordered by the random draws are a permutation of the labels |
| DataSplitter.SplitFolds | src/carskit/data/processor/DataSplitter.java:102-133 | after splitFolds every rating carries a fold label between 1 and numFold, and the labels are a permutation of the balanced ones |
| DataSplitter.ShuffledFoldsBalanced | src/carskit/data/processor/DataSplitter.java:102-133 | after the random reordering the folds still differ in size by at most one |
| DataSplitter.KeepPartition | src/carskit/data/processor/DataSplitter.java:72-89 | a selection and its complement split the non-zero ratings exactly |
| DataSplitter.KeepMembers | src/carskit/data/processor/DataSplitter.java:80-89 | a stored rating is kept exactly when it is selected and non-zero (reshape drops zeros) |
| DataSplitter.KthFold | src/carskit/data/processor/DataSplitter.java:68-94 | getKthFold is null exactly for k outside 1..numFold |
| DataSplitter.KthFoldPartition | src/carskit/data/processor/DataSplitter.java:68-94 | the train and test matrices of a fold are disjoint, together hold all non-zero ratings, and a rating is in test exactly when its label is k |
| DataSplitter.EachRatingTestedOnce | src/carskit/data/processor/DataSplitter.java:68-133 | over the folds 1..numFold, each non-zero rating is in the test matrix of exactly one fold |
| DataSplitter.RatioByRating | src/carskit/data/processor/DataSplitter.java:141-168 | a rating whose draw is below the ratio is kept for training, any other for testing |
| DataSplitter.RatioPartition | src/carskit/data/processor/DataSplitter.java:141-168 | every non-zero rating lands on exactly one side of the ratio split |
| Recommender.Bound | src/carskit/generic/Recommender.java:306-317 | without bound the prediction is unchanged; with bound NaN stays NaN, any other prediction is clamped into [minRate, maxRate], and one already inside is unchanged |
| Recommender.BoundIdempotent | src/carskit/generic/Recommender.java:306-317 | bounding a bounded prediction changes nothing |
| Recommender.RoundToLevel | src/carskit/generic/Recommender.java:500 | the rounded prediction is a whole multiple of minRate, and for a positive minRate the nearest one to the prediction, ties rounding up |
| Recommender.StepKept | src/carskit/generic/Recommender.java:483-511 | one loop pass adds to the sums exactly what the rating leaves after the NaN test |
| Recommender.AccumulateKept | src/carskit/generic/Recommender.java:480-512 | the accumulated sums and numCount are the sums and the number of the test ratings whose bounded prediction is not NaN |
| Recommender.EvalRatingsMeaning | src/carskit/generic/Recommender.java:469-553 | MAE, MSE and their rounded forms are the sums over the kept ratings divided by their number, MPE is 0 (numPEs never grows), and with nothing kept every measure is NaN |
| Recommender.KeptOfAppend | src/carskit/generic/Recommender.java:483-493 | the kept ratings of two test sequences in turn are those of each, concatenated |
| Recommender.EvalRatingsOfKept | src/carskit/generic/Recommender.java:469-553 | two test sets with the same kept ratings get the same measures |
| Recommender.EvalRatingsSkipsNaN | src/carskit/generic/Recommender.java:491-493 | a NaN prediction anywhere in the test set changes no measure |
| Recommender.EvalRatingsRun | src/carskit/generic/Recommender.java:469-530 | evalRatings with its prediction lines: it completes exactly when every kept rating's situation renders to names, then with the measures of EvalRatings; otherwise it fails with the error of some kept rating's rendering |
| Recommender.FirstOutputError | src/carskit/generic/Recommender.java:483-519 | the first failure the loop meets while writing the prediction lines: none exactly when every kept rating renders, otherwise the error of a kept rating all of whose kept predecessors rendered |
| Recommender.EmptySituationOutputThrows | src/carskit/generic/Recommender.java:513-519 | a kept rating whose situation has no condition makes the output line, and so evalRatings, throw |
| Recommender.StoredSituationsOutput | src/carskit/generic/Recommender.java:513-519 | when every test rating's situation is stored with at least one condition, evalRatings completes with the measures of EvalRatings |
| Recommender.KeptInScale | src/carskit/generic/Recommender.java:306-317 | with test ratings inside the scale, every kept rating and bounded prediction lies in [minRate, maxRate] |
| Recommender.MeanErrorInScale | src/carskit/generic/Recommender.java:502-529 | absolute errors between values of the scale average to between 0 and the scale's width |
| Recommender.EvalRatingsMae | src/carskit/generic/Recommender.java:529 | MAE is the mean absolute error over the kept ratings |
| Recommender.MaeWithinScale | src/carskit/generic/Recommender.java:529-538 | with test ratings inside the scale, MAE is at most maxRate - minRate and NMAE lies in [0, 1] |
| Recommender.SplitRecords | src/carskit/generic/Recommender.java:587-598 | the training cells are read exactly when every row is a registered pair, one record per cell, the user and item remapped by the split tables when they have an entry |
| Recommender.GroupIsRatesOn | src/carskit/generic/Recommender.java:598-608 | a (user, item) key is grouped exactly when it has a rating, and it holds that key's ratings in order |
| Recommender.SplitTableAsWritten | src/carskit/generic/Recommender.java:598-608 | as written, each cell holds the mean of the distinct ratings on its key, since a HashMultimap keeps each value once |
| Recommender.SplitTable | src/carskit/generic/Recommender.java:598-608 | as intended, each cell holds the mean of every rating on its key, and there is a cell exactly for the keys with a rating |
| Recommender.SplitTableAsWrittenDropsRepeats | src/carskit/generic/Recommender.java:585-607 | ratings 4, 4 and 1 on one key give 2.5 as written, where their mean is 3 |
| Recommender.UserBound | src/carskit/generic/Recommender.java:599-611 | maxUser + 1 exceeds every remapped user and is reached by one, 0 without records |
| Recommender.ItemBound | src/carskit/generic/Recommender.java:600-612 | maxItem + 1 exceeds every remapped item and is reached by one, 0 without records |
| Recommender.SplitMatrixAsWritten | src/carskit/generic/Recommender.java:581-617 | as written, the split matrix is built exactly when every row is a registered pair, with the distinct-value means |
| Recommender.SplitMatrixOf | src/carskit/generic/Recommender.java:581-617 | the split matrix is built exactly when every row is a registered pair; it holds each key's mean rating, numUsers and numItems never shrink, and every cell lies inside them |
| Rankings.ParseItemsFilter | src/carskit/generic/Recommender.java:266-268 | items.filter is accepted exactly when it is "none", "user" or "user-context", and the filter read names it back |
| Rankings.FilterNameRoundTrip | src/carskit/generic/Recommender.java:137 | every filter's name reads back as that filter |
| Rankings.Ignored | src/carskit/generic/Recommender.java:675-689 | with numIgnore > 0, the ignored items are min(numIgnore, number of items) of the training items, and each has at least as many training ratings as every item not ignored |
| Rankings.Candidates | src/carskit/generic/Recommender.java:658-689 | the candidates are the training items minus the ignored ones, all of them when numIgnore <= 0, and every removed item is at least as popular as every kept one |
| Rankings.Scored | src/carskit/generic/Recommender.java:757-767 | every scored entry is a candidate that passes the filter, with its non-NaN ranking score |
| Rankings.ScoredEmpty | src/carskit/generic/Recommender.java:757-770 | nothing is scored exactly when no candidate passes the filter with a non-NaN score |
| Rankings.EvalSituationSkips | src/carskit/generic/Recommender.java:729-770 | a situation is skipped exactly when none of its test items is a candidate or nothing can be ranked |
| Rankings.EvalSituationCorrect | src/carskit/generic/Recommender.java:730-737 | the correct items are exactly the situation's test items that are candidates |
| Rankings.RecommendedFromScored | src/carskit/generic/Recommender.java:773-775 | every entry of the recommended list is a scored entry |
| Rankings.EvalSituationRanked | src/carskit/generic/Recommender.java:757-782 | every ranked item is a candidate with a score, and with a filter on none is in ratedItems |
| Rankings.EvalSituationSizes | src/carskit/generic/Recommender.java:765-800 | the ranked list has numRecs items when numRecs is positive and smaller than the scored list, the first 10 (all when fewer) when numRecs is negative, since numTopNRanks falls back to 10 and the loop breaks there, else all of them; numDropped is the unblocked candidates not ranked, never negative |
| Rankings.RankLoop | src/carskit/generic/Recommender.java:778-797 | the ranked items are a prefix of the scored list: numTopNRanks - count of them when that is positive and smaller than the list, otherwise the whole list |
| Rankings.ScoredAndBlocked | src/carskit/generic/Recommender.java:758-767 | the scored and the blocked candidates together are at most all the candidates |
| Rankings.EvalSituationOrder | src/carskit/generic/Recommender.java:773-782 | the ranked items come in non-increasing score order |
| Rankings.NoFilterIgnoresRated | src/carskit/generic/Recommender.java:759 | without a filter the scored list does not depend on ratedItems and nothing is blocked |
| Rankings.UsersCount | src/carskit/generic/Recommender.java:692-852 | every test user gets an entry, even when all of its situations are skipped |
| Rankings.EvalRankingsPerUser | src/carskit/generic/Recommender.java:692-852 | the per-user rankings computed by the user loop have one entry per test user; whether the output lines let evalRankings complete is stated by Rankings.EvalRankingsRun |
| Rankings.EvalRankingsRun | src/carskit/generic/Recommender.java:692-852 | evalRankings completes exactly when the output line of every ranked (not skipped) situation can name the situation, and then gives the per-user rankings; otherwise it fails with the naming error of some ranked situation |
| Rankings.FirstNameError | src/carskit/generic/Recommender.java:830-833 | no error exactly when every ranked situation's name renders; otherwise the error of the first one that does not, all earlier ones rendering |
| Rankings.FirstRankingError | src/carskit/generic/Recommender.java:692-839 | no error exactly when every ranked situation of every user can be named; otherwise the naming error of one of them |
| Rankings.EvalRankingsRunPerUser | src/carskit/generic/Recommender.java:692-852 | a completed evalRankings has one entry per test user |
| Recommender.EmptySituationRankingThrows | src/carskit/generic/Recommender.java:830-833 | a ranked situation without conditions makes its output line, and so evalRankings, throw |
| Recommender.StoredSituationsRanking | src/carskit/generic/Recommender.java:830-833 | when every ranked situation is stored with at least one condition, every output line renders and evalRankings gives its rankings |
| Rankings.SituationsUserFilter | src/carskit/generic/Recommender.java:710-767 | with the "user" filter ratedItems stays the user's training items, and no ranking of the user contains any of them |
| Rankings.UserFilterExcludesTraining | src/carskit/generic/Recommender.java:692-852 | with the "user" filter, no item a test user rated in training, in any situation, is ranked for that user |
| Rankings.SituationsUserContext | src/carskit/generic/Recommender.java:742-767 | with the "user-context" filter, a ranking for a situation the user has training ratings in contains none of those items |
| Rankings.SituationsCarry | src/carskit/generic/Recommender.java:742-747 | with the "user-context" filter ratedItems carries over: after a user's loop it is the training items of the last matching situation, or what it was when none matched |
| CARSKit.JavaDiv | src/carskit/main/CARSKit.java:172 | Java's int division truncates toward zero |
| CARSKit.JavaRem | src/carskit/main/CARSKit.java:172 | Java's int remainder takes the dividend's sign and completes the truncating division |
| CARSKit.SmallDigitsString | src/carskit/main/CARSKit.java:172 | no decimal digit of a natural number exceeds 1 exactly when its decimal text uses only '0' and '1' |
| CARSKit.IsBinaryNumber | src/carskit/main/CARSKit.java:172 | isBinaryNumber holds exactly for a number whose decimal digits are all 0 or 1, and for every negative number (its truncated remainders are never above 0) |
| CARSKit.BinaryColumnsAll | src/carskit/main/CARSKit.java:192-199 | the column loop ends with true exactly when every column from the given one on is "dim:cond" with a binary number under it |
| CARSKit.BinaryColumnsErrors | src/carskit/main/CARSKit.java:195 | the column loop throws only at a "dim:cond" column whose data field is missing or not an integer |
| CARSKit.ValidateDataFormat | src/carskit/main/CARSKit.java:174-211 | the format read is 1, 2 or 3, and a file with fewer than two lines makes the read fail |
| CARSKit.ClassifyLoose | src/carskit/main/CARSKit.java:185-190 | a file is loose exactly when its last two header columns read "dimension" and "condition" |
| CARSKit.ClassifyBinary | src/carskit/main/CARSKit.java:191-205 | a file that is not loose is binary exactly when every column from the fourth on is "dim:cond" with a binary number under it |
| CARSKit.ClassifyErrors | src/carskit/main/CARSKit.java:183-199 | the check fails only for a one-column header or at a "dim:cond" column whose data field is missing or not an integer |
| CARSKit.LoadTestSet | src/carskit/main/CARSKit.java:330-335 | a test set read on the training store gives a consistent store |
| CARSKit.TestSetKeepsTrainIds | src/carskit/main/CARSKit.java:330-335 | users, items and dimensions of the training set keep their inner ids in the test set, and new ones get ids past them |
| CARSKit.AddFold | src/carskit/main/CARSKit.java:412-417 | adding a fold's measures keeps every measure seen so far and adds each reported value divided by kFold |
| CARSKit.FoldAverageKeys | src/carskit/main/CARSKit.java:410-418 | a measure is averaged exactly when some fold reports it |
| CARSKit.FoldAverageValue | src/carskit/main/CARSKit.java:410-418 | each averaged measure is the sum of its values over the folds divided by kFold |
| CARSKit.ReportedSoFar | src/carskit/main/CARSKit.java:410-418 | every measure, averaged or not (reading 0 when absent), is its sum over the folds divided by kFold |
| CARSKit.FoldSumUnreported | src/carskit/main/CARSKit.java:415 | a measure no fold reports sums to 0 |
| CARSKit.GetRecommender | src/carskit/main/CARSKit.java:424-744 | a recommender chosen directly is one of the known tags; a splitter is chosen with one of the traditional recommenders it accepts |
| CARSKit.GetRecommenderMeaning | src/carskit/main/CARSKit.java:424-744 | the tag is matched without regard to case, an unknown tag is refused with "No recommender is specified!", a known one is chosen, and a splitter is accepted exactly when its traditional recommender is known |
| Measures.TopN | src/carskit/eval/Measures.java:13-20 | the top-n list exists exactly for n >= 0 (a negative capacity throws) and is the list's prefix of length min(n, size) |
| Measures.GetTopNList | src/carskit/eval/Measures.java:13-20 | the copying loop yields exactly the top-n list, and fails exactly for a negative n |
| Measures.MetricAt | src/carskit/eval/Measures.java:21-59 | each single-cutoff metric (nDCGAt, AUCAt, APAt, RRAt) is defined exactly for n >= 0 and is then the base metric of the first min(n, size) elements |
| Measures.AtMapMeaning | src/carskit/eval/Measures.java:25-67 | each cutoff-map overload is built exactly when no cutoff is negative; its keys are exactly the cutoffs, each holding the single-cutoff metric there |
| Measures.TopNWhole | src/carskit/eval/Measures.java:14 | cutting at the list's length or beyond keeps the whole list |
| Measures.TopNTwice | src/carskit/eval/Measures.java:13-20 | cutting a top-a list at b is cutting the original at min(a, b) |
| KNN.Qualified | src/carskit/alg/baseline/cf/UserKNN.java:89-98 | an entry of the similarity row becomes a candidate neighbour exactly when the target is rated by it and, in rating mode, its similarity is positive; ranking mode admits any similarity |
| KNN.DeviateBounds | src/carskit/alg/baseline/cf/UserKNN.java:112-122 | with positive similarities the deviation formula stays between the base plus the smallest and plus the largest deviation |
| KNN.KeptMeaning | src/carskit/alg/baseline/cf/UserKNN.java:89-107 | every neighbour kept after the top-knn cut is a stored similarity of the row whose target is rated, positive in rating mode |
| KNN.UserKNNInContext | src/carskit/alg/baseline/cf/UserKNN.java:76-81 | the contextual prediction is the plain prediction when neither splitting table holds (u, c) or (j, c) |
| KNN.UserNeighboursMeaning | src/carskit/alg/baseline/cf/UserKNN.java:89-107 | kept neighbours are similarities of u with users who rated j; exactly knn are kept when 0 < knn < number of candidates, all otherwise; no candidate left out is more similar than one kept |
| KNN.UserKNNNoNeighbours | src/carskit/alg/baseline/cf/UserKNN.java:109-110 | with no qualifying neighbour the prediction is globalMean |
| KNN.UserKNNBounds | src/carskit/alg/baseline/cf/UserKNN.java:66-122 | in rating mode with neighbours, the prediction lies within u's mean plus the range of the neighbours' deviations from their own means |
| KNN.ItemKNNInContext | src/carskit/alg/baseline/cf/ItemKNN.java:73-78 | the contextual prediction is the plain prediction when neither splitting table holds (u, c) or (j, c) |
| KNN.ItemNeighboursMeaning | src/carskit/alg/baseline/cf/ItemKNN.java:87-105 | kept neighbours are similarities of j with items u rated; exactly knn are kept when 0 < knn < number of candidates, all otherwise; no candidate left out is more similar than one kept |
| KNN.ItemKNNNoNeighbours | src/carskit/alg/baseline/cf/ItemKNN.java:107-108 | with no qualifying neighbour the score is 0 in ranking mode and globalMean in rating mode |
| KNN.ItemKNNRankingScore | src/carskit/alg/baseline/cf/ItemKNN.java:110-113 | in ranking mode the score is the sum of the kept similarities, and without a cut the sum over every item u rated in j's row |
| KNN.ItemKNNBounds | src/carskit/alg/baseline/cf/ItemKNN.java:63-127 | in rating mode with neighbours, the prediction lies within j's mean plus the range of u's deviations from the neighbours' means |
| SlopeOne.CoRatingsCount | src/carskit/alg/baseline/cf/SlopeOne.java:59-73 | each user who rated both items adds exactly one term to the (i, j) cell |
| SlopeOne.CoRatingsSwap | src/carskit/alg/baseline/cf/SlopeOne.java:59-73 | cell (j, i) receives as many terms as (i, j) and the opposite summed difference |
| SlopeOne.CardCounts | src/carskit/alg/baseline/cf/SlopeOne.java:59-73 | card(i, j) is the number of users who rated both items, 0 on the diagonal |
| SlopeOne.DevAntisymmetric | src/carskit/alg/baseline/cf/SlopeOne.java:59-84 | card is symmetric and dev antisymmetric |
| SlopeOne.TablesMeaning | src/carskit/alg/baseline/cf/SlopeOne.java:59-84 | card counts co-raters, is symmetric; dev is antisymmetric, and 0 on the diagonal and wherever card is 0 |
| SlopeOne.RowExcept | src/carskit/alg/baseline/cf/SlopeOne.java:100 | the cells taken are exactly u's ratings of items other than j |
| SlopeOne.Terms | src/carskit/alg/baseline/cf/SlopeOne.java:102-108 | every term that takes part carries a positive card weight |
| SlopeOne.PredictInContext | src/carskit/alg/baseline/cf/SlopeOne.java:88-95 | without a split entry the plain prediction is used; with only an item split, the prediction for the split item id |
| SlopeOne.TermsMeaning | src/carskit/alg/baseline/cf/SlopeOne.java:102-108 | there are no terms exactly when no cell has a positive card, and each term's value lies in any range bounding dev(j, i) + r_ui over the taking part cells |
| SlopeOne.PredictMeaning | src/carskit/alg/baseline/cf/SlopeOne.java:98-111 | globalMean when no other rated item shares a rater with j; otherwise the prediction lies within the range of dev(j, i) + r_ui over the items taking part |
| ItemSplitting.ExceedsTransitive | src/carskit/alg/cars/transformation/prefiltering/splitting/ItemSplitting.java:84 | Java's `>` on doubles (with infinities) is transitive, which the running maximum relies on |
| ItemSplitting.SamplesPartition | src/carskit/alg/cars/transformation/prefiltering/splitting/ItemSplitting.java:61-73 | the first sample is exactly the item's ratings given in a situation of the condition, and the two samples together are all of its ratings |
| ItemSplitting.Choose | src/carskit/alg/cars/transformation/prefiltering/splitting/ItemSplitting.java:55-91 | the chosen position, when there is one, is a position of the condition list |
| ItemSplitting.ChooseMeaning | src/carskit/alg/cars/transformation/prefiltering/splitting/ItemSplitting.java:55-91 | the chosen condition is a candidate (both samples at least min, p < 0.05) whose t beats Double.MIN_VALUE and no candidate's t exceeds it; none is chosen exactly when no candidate's t beats Double.MIN_VALUE |
| ItemSplitting.ChosenPositive | src/carskit/alg/cars/transformation/prefiltering/splitting/ItemSplitting.java:55-88 | a chosen condition's t statistic is positive or +infinity |
| ItemSplitting.SplitNextId | src/carskit/alg/cars/transformation/prefiltering/splitting/ItemSplitting.java:92-94 | the next free id after the pass is startId plus the number of items split |
| ItemSplitting.SplitOnlyKeys | src/carskit/alg/cars/transformation/prefiltering/splitting/ItemSplitting.java:49-103 | the table has an entry (j, c) only when item j splits on a condition holding in situation c |
| ItemSplitting.SplitMapsItems | src/carskit/alg/cars/transformation/prefiltering/splitting/ItemSplitting.java:49-103 | every split item is mapped, for every situation of its split condition, to startId plus the number of items split before it |
| ItemSplitting.SplitCountGrows | src/carskit/alg/cars/transformation/prefiltering/splitting/ItemSplitting.java:94 | two split items receive different ids, increasing in visiting order |
| ExactFiltering.Rekey | src/carskit/alg/cars/transformation/prefiltering/ExactFiltering.java:190-196 | the rebuilt matrix is well formed and its keys are exactly the (user, item) pairs of the listed rows |
| ExactFiltering.UIMatrix | src/carskit/alg/cars/transformation/prefiltering/ExactFiltering.java:181-198 | the situation's user x item matrix is built exactly when every row rated in the situation is a registered pair, and is well formed |
| ExactFiltering.RekeyValues | src/carskit/alg/cars/transformation/prefiltering/ExactFiltering.java:190-196 | when equal pairs carry equal ratings, each cell keeps its rating under its (user, item) key |
| ExactFiltering.UIMatrixCells | src/carskit/alg/cars/transformation/prefiltering/ExactFiltering.java:181-198 | the situation's matrix holds (u, i) exactly when some pair of u and i was rated in that situation, with that rating |
| ExactFiltering.Collect | src/carskit/alg/cars/transformation/prefiltering/ExactFiltering.java:132-152 | a neighbour is collected exactly when it is a training user other than a with a registered pair for t, a positive rating in exactly c and a positive similarity to a, carrying that similarity and rating |
| ExactFiltering.Deviations | src/carskit/alg/cars/transformation/prefiltering/ExactFiltering.java:168-172 | one (similarity, deviation) term per kept neighbour |
| ExactFiltering.PredictRating | src/carskit/alg/cars/transformation/prefiltering/ExactFiltering.java:124-178 | subList throws exactly when knn is negative and some neighbour exists; otherwise the prediction is positive or falls back to a's mean |
| ExactFiltering.Kept | src/carskit/alg/cars/transformation/prefiltering/ExactFiltering.java:156-163 | the kept neighbours are the knn most similar when knn is positive, none when knn is 0, and always drawn from the collected ones |
| ExactFiltering.PredictRatingNeighbours | src/carskit/alg/cars/transformation/prefiltering/ExactFiltering.java:132-163 | the kept neighbours qualify; there are min(knn, count) of them and none left out is more similar than one kept |
| ExactFiltering.CombineBounds | src/carskit/alg/cars/transformation/prefiltering/ExactFiltering.java:165-177 | with kept neighbours the result is a's mean or lies within a's mean plus the range of the neighbours' deviations |
| ExactFiltering.PredictRatingMeaning | src/carskit/alg/cars/transformation/prefiltering/ExactFiltering.java:124-178 | with knn = 0 or no neighbour the prediction is a's mean; otherwise it is a's mean or within a's mean plus the deviations' range |
| ExactFiltering.FirstQualified | src/carskit/alg/cars/transformation/prefiltering/ExactFiltering.java:83-97 | the loop collects at most knn users, each from a's similarity row with positive similarity and a positive rating of t |
| ExactFiltering.FirstQualifiedIsPrefix | src/carskit/alg/cars/transformation/prefiltering/ExactFiltering.java:83-97 | the early exit keeps exactly the first min(knn, count) qualifying users in index order |
| ExactFiltering.PredictRanking | src/carskit/alg/cars/transformation/prefiltering/ExactFiltering.java:77-123 | the ranking score is positive or falls back to a's mean |
| ExactFiltering.PredictRankingMeaning | src/carskit/alg/cars/transformation/prefiltering/ExactFiltering.java:77-123 | the neighbours used are the first min(knn, count) qualifying users of a's row; without any the score is a's mean, and otherwise a's mean or within a's mean plus their deviations' range |
| HybridFiltering.ListOf | src/carskit/alg/cars/transformation/hybridfiltering/DCR.java:345-346 | a situation's condition list is present exactly when the situation was loaded |
| HybridFiltering.CondAt | src/carskit/alg/cars/transformation/hybridfiltering/DCR.java:349 | reading a condition succeeds exactly when the list is present and the index is within it; a missing list is a NullPointerException |
| HybridFiltering.Mask | src/carskit/alg/cars/transformation/hybridfiltering/DCR.java:200-211 | each mask has num_dim entries |
| HybridFiltering.SplitPosition | src/carskit/alg/cars/transformation/hybridfiltering/DCR.java:199-211 | the split succeeds exactly when the position has at most 3·num_dim entries, giving three masks of num_dim entries; a longer one overruns the third array |
| HybridFiltering.SplitPositionConcat | src/carskit/alg/cars/transformation/hybridfiltering/DCR.java:199-211 | the three masks laid end to end give back the position padded with zeros, and exactly the position when it has 3·num_dim entries |
| HybridFiltering.SplitPositionLoop | src/carskit/alg/cars/transformation/hybridfiltering/DCW.java:175-187 | the one-pass loop over the position computes the same split, including the overrun |
| HybridFiltering.ParseField | src/carskit/alg/cars/transformation/hybridfiltering/DCW.java:165 | a field is read exactly when its trimmed text parses |
| HybridFiltering.LoadSolution | src/carskit/alg/cars/transformation/hybridfiltering/DCR.java:182-194 | a field count other than num_dim·3 leaves the current position unchanged; a loaded position has num_dim·3 entries |
| HybridFiltering.LoadSolutionMeaning | src/carskit/alg/cars/transformation/hybridfiltering/DCW.java:158-170 | with the right field count, loading succeeds exactly when every trimmed field parses, and the position then holds the parsed values in order |
| HybridFiltering.LoadSolutionRoundTrip | src/carskit/alg/cars/transformation/hybridfiltering/DCW.java:158-170 | a position written as ';'-joined renderings that parse back is loaded back unchanged |
| HybridFiltering.Rendered | src/carskit/alg/cars/transformation/hybridfiltering/DCW.java:159 | one rendered field per position entry, in order |
| DCR.RelaxFromMeaning | src/carskit/alg/cars/transformation/hybridfiltering/DCR.java:347-354 | when both lists reach the masked dimensions, the loop never throws and answers whether the lists agree on every masked dimension from i on |
| DCR.ContextRelaxationMeaning | src/carskit/alg/cars/transformation/hybridfiltering/DCR.java:343-356 | c and ctx match exactly when their conditions are equal on every dimension whose mask entry is 1 |
| DCR.NoMaskMatches | src/carskit/alg/cars/transformation/hybridfiltering/DCR.java:347-354 | a mask selecting no dimension never stops the loop |
| DCR.AllZeroMaskMatches | src/carskit/alg/cars/transformation/hybridfiltering/DCR.java:343-356 | an all-zero mask matches every pair of situations, loaded or not |
| DCR.UnknownSituationFrom | src/carskit/alg/cars/transformation/hybridfiltering/DCR.java:347-354 | a missing first list throws at the first masked dimension |
| DCR.UnknownSituationThrows | src/carskit/alg/cars/transformation/hybridfiltering/DCR.java:345-349 | a situation that was never loaded makes the comparison throw NullPointerException under any mask selecting a dimension |
| DCR.ContextRelaxationReflexive | src/carskit/alg/cars/transformation/hybridfiltering/DCR.java:343-356 | every loaded situation reaching the masked dimensions matches itself |
| DCR.RelaxFromSymmetric | src/carskit/alg/cars/transformation/hybridfiltering/DCR.java:347-354 | swapping the lists changes neither whether the loop completes nor its answer |
| DCR.ContextRelaxationSymmetric | src/carskit/alg/cars/transformation/hybridfiltering/DCR.java:343-356 | matching is symmetric in c and ctx, up to which exception is thrown |
| DCR.ContextRelaxationAntitone | src/carskit/alg/cars/transformation/hybridfiltering/DCR.java:347-353 | a match under a mask remains a match under any mask selecting fewer dimensions |
| DCR.FirstMatch | src/carskit/alg/cars/transformation/hybridfiltering/DCR.java:329-341 | the result is -1 or the rating of one of the row's cells |
| DCR.FirstMatchMeaning | src/carskit/alg/cars/transformation/hybridfiltering/DCR.java:329-341 | with no matching situation the result is -1, and otherwise the rating of the first matching situation of the row |
| DCR.RelaxFromCongruent | src/carskit/alg/cars/transformation/hybridfiltering/DCR.java:349 | two comparisons agreeing on every id of the first list give the same loop result |
| DCR.AsWrittenAgreesWithinCache | src/carskit/alg/cars/transformation/hybridfiltering/DCR.java:349 | the reference comparison gives the by-value answer when c equals ctx or c's ids all lie in the boxing cache |
| DCR.AsWrittenMissesSharedCondition | src/carskit/alg/cars/transformation/hybridfiltering/DCR.java:349 | two situations sharing condition 200 on the masked dimension match by value but not by reference |
| DCW.AgreeWeights | src/carskit/alg/cars/transformation/hybridfiltering/DCW.java:333-336 | one weight per mask entry |
| DCW.AgreeingFromOk | src/carskit/alg/cars/transformation/hybridfiltering/DCW.java:331-336 | the loop completes exactly when it has nothing left to read or both lists are present and reach every dimension of the weights |
| DCW.AgreeingFromValue | src/carskit/alg/cars/transformation/hybridfiltering/DCW.java:333-336 | the loop sums the weights of the dimensions on which the two lists agree |
| DCW.ContextSimilarityMeaning | src/carskit/alg/cars/transformation/hybridfiltering/DCW.java:329-338 | the similarity is computed exactly when the weights are empty or both lists reach them, and is the agreeing weight over the total weight (in Java double division) |
| DCW.ContextSimilaritySymmetric | src/carskit/alg/cars/transformation/hybridfiltering/DCW.java:329-338 | the similarity is symmetric in c and ctx |
| DCW.ContextSimilaritySelf | src/carskit/alg/cars/transformation/hybridfiltering/DCW.java:329-338 | a situation's similarity to itself is 1 when the weights do not sum to 0 |
| DCW.SumBetween | src/carskit/alg/cars/transformation/hybridfiltering/DCW.java:333-337 | weights taken from between 0 and the mask's sum to between 0 and the mask's sum |
| DCW.ContextSimilarityBounds | src/carskit/alg/cars/transformation/hybridfiltering/DCW.java:332-337 | with non-negative weights of positive sum the similarity is a number in [0, 1] |
| DCW.Ctxs | src/carskit/alg/cars/transformation/hybridfiltering/DCW.java:304 | the situation ids of the row's cells, in order |
| DCW.AllComputedCons | src/carskit/alg/cars/transformation/hybridfiltering/DCW.java:304-310 | every similarity of a row is computed exactly when the first and all later ones are |
| DCW.AccumulateMeaning | src/carskit/alg/cars/transformation/hybridfiltering/DCW.java:302-310 | the loop completes exactly when every similarity is computed, and then gives the total and count of the ratings of the similar situations |
| DCW.ContextWeightMeaning | src/carskit/alg/cars/transformation/hybridfiltering/DCW.java:301-315 | -1 when no situation is similar enough, otherwise the mean of the ratings of the similar ones |
| DCW.ContextMatchMeaning | src/carskit/alg/cars/transformation/hybridfiltering/DCW.java:317-327 | true exactly when some situation of the row has similarity at least th |
| DCW.SimilarRatesNonEmpty | src/carskit/alg/cars/transformation/hybridfiltering/DCW.java:304-310 | some rating is averaged exactly when some situation of the row is similar enough |
| DCW.SumNonNegative | src/carskit/alg/cars/transformation/hybridfiltering/DCW.java:307 | non-negative ratings sum to a non-negative total |
| DCW.ContextMatchIffWeight | src/carskit/alg/cars/transformation/hybridfiltering/DCW.java:301-327 | ContextMatch is true exactly when ContextWeight averages some rating, so with non-negative ratings exactly when ContextWeight is not -1 |
| DCW.SimilarRatesAtLeast | src/carskit/alg/cars/transformation/hybridfiltering/DCW.java:304-310 | every averaged rating is one of the row's, so a lower bound of the row bounds them |
| DCW.AgreeingFromCongruent | src/carskit/alg/cars/transformation/hybridfiltering/DCW.java:334 | two comparisons agreeing on every id of the first list give the same sum |
| DCW.AsWrittenAgreesWithinCache | src/carskit/alg/cars/transformation/hybridfiltering/DCW.java:334 | the reference comparison gives the by-value similarity when c equals ctx or c's ids all lie in the boxing cache |
| DCW.AsWrittenMissesSharedCondition | src/carskit/alg/cars/transformation/hybridfiltering/DCW.java:334 | two situations sharing condition 200 get similarity 0 by reference where the by-value similarity is 1 |
| Chen.RowIds | src/carskit/alg/cars/adaptation/independent/Chen1.java:157 | every row index of the matrix is listed, and only those |
| Chen.ColIds | src/carskit/alg/cars/adaptation/independent/Chen1.java:136 | every column index of the matrix is listed, and only those |
| Chen.PositiveCells | src/carskit/alg/cars/adaptation/independent/Chen1.java:164-177 | exactly the cells with a positive rating are counted |
| Chen.Tally | src/carskit/alg/cars/adaptation/independent/Chen1.java:143-202 | the dimension count never exceeds the number of dimensions |
| Chen.Present | src/carskit/alg/cars/adaptation/independent/Chen1.java:196-201 | no more existing cosines than dimensions |
| Chen.TallyPresent | src/carskit/alg/cars/adaptation/independent/Chen1.java:196-201 | the loop's (sim, count) is the sum and number of the dimensions whose cosine exists |
| Chen.AggregateMeaning | src/carskit/alg/cars/adaptation/independent/Chen1.java:143-203 | 0 when no dimension has a cosine; otherwise the mean of the existing cosines, within any range bounding them |
| Chen.PresentBounds | src/carskit/alg/cars/adaptation/independent/Chen1.java:196-201 | every existing cosine lies in any range bounding all of them |
| Chen.Scores | src/carskit/alg/cars/adaptation/independent/Chen1.java:144-147 | one score per condition of c1 |
| Chen.SimilarityOver | src/carskit/alg/cars/adaptation/independent/Chen1.java:131-204 | a situation with no conditions has similarity 0 |
| Chen.SimilarityAsWritten | src/carskit/alg/cars/adaptation/independent/Chen1.java:131-204 | as written (users taken from train.columns()), a situation with no conditions has similarity 0 |
| Chen.Similarity | src/carskit/alg/cars/adaptation/independent/Chen1.java:131-204 | with the loop over the users, a situation with no conditions has similarity 0 |
| Chen.MomentsOfSwapped | src/carskit/alg/cars/adaptation/independent/Chen1.java:189-195 | swapping the two vectors keeps sim1 and exchanges sim2 and sim3 |
| Chen.ComponentSwap | src/carskit/alg/cars/adaptation/independent/Chen1.java:155-187 | swapping the conditions swaps the deviations one user adds, and keeps whether the user adds any |
| Chen.ComponentsSwap | src/carskit/alg/cars/adaptation/independent/Chen1.java:155-187 | swapping the conditions swaps every entry of the two vectors |
| Chen.MomentsSwap | src/carskit/alg/cars/adaptation/independent/Chen1.java:155-195 | swapping the conditions keeps sim1 and exchanges sim2 and sim3 |
| Chen.DimScoreSwap | src/carskit/alg/cars/adaptation/independent/Chen1.java:146-201 | a dimension's cosine is symmetric in its two conditions |
| Chen.SimilaritySymmetric | src/carskit/alg/cars/adaptation/independent/Chen1.java:131-204 | two situations with as many conditions have the same similarity in either order |
| Chen.SimilarityFnSymmetric | src/carskit/alg/cars/adaptation/independent/Chen1.java:131-204 | when every situation has one condition per dimension, the context similarity is symmetric |
| Chen.SimilarityAsWrittenFnSymmetric | src/carskit/alg/cars/adaptation/independent/Chen1.java:131-204 | the written similarity, looping over train.columns(), is symmetric as well when every situation has one condition per dimension |
| Chen.CachedSimilarity | src/carskit/alg/cars/adaptation/independent/Chen1.java:229-245 | a found or computed similarity is stored under "c,rc", and a computed one also under "rc,c"; no cached key is lost |
| Chen.CachedSimilaritySound | src/carskit/alg/cars/adaptation/independent/Chen1.java:229-245 | from a sound cache of a symmetric similarity the lookup returns the similarity itself and the cache stays sound |
| Chen.Fallback | src/carskit/alg/cars/adaptation/independent/Chen1.java:213-214 | the fallback is the positive user-item rating or globalMean |
| Chen.SimTerms | src/carskit/alg/cars/adaptation/independent/Chen1.java:224-249 | one (similarity, rating) term per rated situation, with the situation's rating and its similarity to c |
| Chen.SimTermsCons | src/carskit/alg/cars/adaptation/independent/Chen1.java:224-249 | the sums over a row are the first situation's term plus the sums over the rest |
| Chen.WeighCons | src/carskit/alg/cars/adaptation/independent/Chen1.java:224-249 | one cached loop step adds r·sim and sim for the first situation and passes the updated cache on |
| Chen.WeighMatchesTerms | src/carskit/alg/cars/adaptation/independent/Chen1.java:224-249 | from a sound cache the cached loop computes the uncached sums Σ r·sim and Σ sim, and leaves the cache sound |
| Chen.Chen1MatchesReferenceWith | src/carskit/alg/cars/adaptation/independent/Chen1.java:208-260 | for any similarity symmetric on the training situations, the cache changes nothing: Chen1 predicts from a sound cache what it predicts computing every similarity afresh, fails exactly when that fails, and leaves the cache sound |
| Chen.Chen1MatchesReference | src/carskit/alg/cars/adaptation/independent/Chen1.java:208-260 | with the similarity looping over the users, Chen1 predicts from a sound cache what it predicts computing every similarity afresh |
| Chen.Chen1AsWrittenMatchesReference | src/carskit/alg/cars/adaptation/independent/Chen1.java:131-260 | as written, with the similarity looping over train.columns(), Chen1 likewise predicts from a sound cache what it predicts computing every similarity afresh |
| Chen.Chen1Bounds | src/carskit/alg/cars/adaptation/independent/Chen1.java:208-260 | for any context similarity, the written one included: an unregistered or unrated pair gets the fallback; otherwise, with positive similarities, the prediction lies within the range of the pair's ratings |
| Chen.SimTermsOk | src/carskit/alg/cars/adaptation/independent/Chen1.java:224-249 | the terms are computed whenever every similarity is |
| Chen.NeighbourRatingMeaning | src/carskit/alg/cars/adaptation/independent/Chen2.java:166-222 | for any similarity: a neighbour's positive rating in exactly the target situation wins; otherwise the rating is Chen1's prediction for the neighbour over the same similarity |
| Chen.CellIndex | src/carskit/alg/cars/adaptation/independent/Chen2.java:173 | a stored key sits at some index of the matrix |
| Chen.NeighbourTerms | src/carskit/alg/cars/adaptation/independent/Chen2.java:154-157 | one term per neighbour, weighted by its similarity |
| Chen.Chen2PredictAsWritten | src/carskit/alg/cars/adaptation/independent/Chen2.java:141-148 | as written (similarity over train.columns(), fallback rate_uj from the local rate), without neighbours the prediction is always globalMean |
| Chen.Chen2Predict | src/carskit/alg/cars/adaptation/independent/Chen2.java:141-148 | without neighbours the prediction is the positive user-item rating, or globalMean |
| Chen.Chen2FallbackCounterexample | src/carskit/alg/cars/adaptation/independent/Chen2.java:141-148 | a user who rated the item 4 with globalMean 3 and no neighbours: 3 as written, 4 as intended |
| Chen.NeighbourRatingSound | src/carskit/alg/cars/adaptation/independent/Chen2.java:166-222 | a neighbour's predicted rating does not depend on the sound cache it starts from, and the cache stays sound |
| Chen.NeighbourRatingFnSound | src/carskit/alg/cars/adaptation/independent/Chen2.java:166-222 | the neighbour ratings are sound for any similarity symmetric on the training situations |
| Chen.ChenRatingSound | src/carskit/alg/cars/adaptation/independent/Chen2.java:40-222 | on uniform situations the neighbour ratings read the context similarity soundly |
| Chen.NeighbourSumsMatchTerms | src/carskit/alg/cars/adaptation/independent/Chen2.java:153-157 | the cached neighbour loop computes the uncached Σ (rating − user_avg)·sim and Σ sim, leaving the cache sound |
| Chen.CombineMatchesReference | src/carskit/alg/cars/adaptation/independent/Chen2.java:147-163 | the final combination gives the same prediction with or without the cache |
| Chen.Chen2MatchesReference | src/carskit/alg/cars/adaptation/independent/Chen2.java:116-164 | the similarity cache changes nothing: Chen2 predicts from a sound cache what it predicts computing everything afresh |
| Chen.Chen2AsWrittenMatchesReference | src/carskit/alg/cars/adaptation/independent/Chen2.java:40-164 | as written, with the similarity over train.columns() and globalMean as fallback, Chen2 predicts from a sound cache what it predicts computing everything afresh |
| Chen.Chen2Bounds | src/carskit/alg/cars/adaptation/independent/Chen2.java:116-164 | for any similarity and fallback, in rating mode with neighbours, the prediction lies within any range bounding the neighbours' predicted ratings |
| Chen.NeighbourTermsBounds | src/carskit/alg/cars/adaptation/independent/Chen2.java:155 | each neighbour's deviation lies within the range of predicted ratings shifted by user_avg |
| Chen.ExampleItemMean | src/carskit/alg/cars/adaptation/independent/Chen1.java:139-140 | in the example the item mean is 3 |
| Chen.AggregateSingle | src/carskit/alg/cars/adaptation/independent/Chen1.java:203 | a single dimension's similarity is its cosine, or 0 when it has none |
| Chen.ExampleAsWrittenScore | src/carskit/alg/cars/adaptation/independent/Chen1.java:136-158 | looping over the item ids finds no pair, so the dimension contributes nothing or 0 |
| Chen.ColumnsAsUsersAsWritten | src/carskit/alg/cars/adaptation/independent/Chen1.java:136 | as written the example's similarity is 0 |
| Chen.ExampleCondCells | src/carskit/alg/cars/adaptation/independent/Chen1.java:164-177 | in the example, user 0's cells in the two conditions are its ratings 5 and 1 |
| Chen.ExampleCondMeans | src/carskit/alg/cars/adaptation/independent/Chen1.java:164-183 | in the example the two condition means are 5 and 1 |
| Chen.ExampleComponents | src/carskit/alg/cars/adaptation/independent/Chen1.java:184-185 | in the example user 0 adds the deviations 2 and -2 |
| Chen.ExampleMoments | src/carskit/alg/cars/adaptation/independent/Chen1.java:189-195 | the deviations 2 and -2 give sim1 = -4 and sim2 = sim3 = 4 |
| Chen.ExampleCorrectedScore | src/carskit/alg/cars/adaptation/independent/Chen1.java:189-201 | with the loop over the users, the example's cosine is -1 |
| Chen.ColumnsAsUsersCorrected | src/carskit/alg/cars/adaptation/independent/Chen1.java:131-204 | with the loop over the users, the example's similarity is -1 |
| Sorting.Insert | src/carskit/alg/baseline/cf/UserKNN.java:102 | inserting into a list sorted largest first keeps it sorted and adds exactly the one element |
| Sorting.SortDesc | src/carskit/alg/baseline/cf/UserKNN.java:102 | Lists.sortMap(nns, true) gives a permutation of the neighbours sorted by similarity, largest first |
| Sorting.TopK | src/carskit/alg/baseline/cf/UserKNN.java:101-107 | the kept neighbours are drawn from the candidates; exactly k are kept when 0 < k < their number and all otherwise; none left out has a larger key than one kept |
| Sorting.PrefixOfSorted | src/carskit/alg/baseline/cf/UserKNN.java:102-103 | cutting a sorted list splits its elements into the prefix and the rest, with no element of the rest above one of the prefix |
| Sums.SumOfPermutation | src/carskit/alg/baseline/cf/UserKNN.java:113-120 | a sum does not depend on the order of its terms, so HashMap iteration order does not change the neighbour sums |
| Doubles.Div | src/carskit/alg/cars/transformation/hybridfiltering/DCW.java:337 | Java double division: the quotient for a non-zero divisor, an infinity for a non-zero numerator over 0, and NaN exactly for 0/0 |
| Doubles.NaNComparesFalse | src/carskit/generic/Recommender.java:491-493 | no Java comparison with NaN holds |
| Text.Lower | src/carskit/data/processor/DataDAO.java:657 | toLowerCase keeps the length and lower-cases each ASCII letter in place |
| Text.LowerIdempotent | src/carskit/data/processor/DataDAO.java:657 | lower-casing twice is lower-casing once |
| Text.TrimStart | src/carskit/data/processor/DataDAO.java:164 | the leading part removed is all blanks and what remains starts with a non-blank |
| Text.TrimEnd | src/carskit/data/processor/DataDAO.java:164 | the trailing part removed is all blanks and what remains ends with a non-blank |
| Text.Trim | src/carskit/data/processor/DataDAO.java:221-223 | a trimmed string is empty or starts and ends with a non-blank |
| Text.TrimNoBlank | src/carskit/data/processor/DataDAO.java:167-169 | a string with no blank at either end is its own trim |
| Text.Split | src/carskit/data/processor/DataDAO.java:184 | split(",", -1) gives at least one field and no field holds the separator |
| Text.JoinSplit | src/carskit/data/processor/DataDAO.java:184 | re-joining the fields of split(",", -1) gives the line back |
| Text.SplitJoin | src/carskit/data/processor/DataDAO.java:184 | joining separator-free fields and splitting again gives the fields back |
| Text.SplitAppend | src/carskit/data/processor/DataDAO.java:184 | splitting a concatenation at a separator splits both halves |
| Text.SplitTrimmed | src/carskit/data/processor/DataDAO.java:1004 | the default-limit split is a prefix of the full split that drops only trailing empty fields, and gives one empty field for the empty string |
| Text.SplitTrimmedKeepsAll | src/carskit/data/processor/DataDAO.java:1004 | when the last field is not empty the default-limit split keeps every field |
| Text.NatToString | src/carskit/data/processor/DataDAO.java:204 | a rendered id is a non-empty string of digits without a comma |
| Text.DigitsValueOfNatToString | src/carskit/data/processor/DataDAO.java:204 | reading a rendered id's digits back gives the id |
| Text.ParseInt | src/carskit/data/processor/DataDAO.java:223 | Integer.valueOf gives a 32-bit value, and the value of a digit string within range |
| Text.ParseNatToString | src/carskit/data/processor/DataDAO.java:223 | Integer.valueOf reads a rendered 32-bit id back |
| Text.Renders | src/carskit/data/processor/DataDAO.java:216-230 | one rendered field per id, in order |
| Text.ParseAll | src/carskit/data/processor/DataDAO.java:689-693 | parsing every field succeeds exactly when each field parses, and keeps each field's value in place |
| Text.ParseIdsKey | src/carskit/data/processor/DataDAO.java:216-230 | a situation key of 32-bit condition ids reads back as those ids; the empty key does not |
| Text.IdsKeyInjective | src/carskit/data/processor/DataDAO.java:216-230 | distinct condition-id lists give distinct situation keys |
| Text.IdsKeyChars | src/carskit/data/processor/DataDAO.java:216-230 | a situation key holds only digits and commas |
| Text.PairKeyInjective | src/carskit/data/processor/DataDAO.java:204 | distinct (user, item) inner-id pairs give distinct uiIds keys |

## Left out

- I/O: file reading and writing, logging, `System.exit` and command-line handling are not modelled. Files are given as their lines, and results go to the caller.
- Concurrency: the fold threads of cross-validation and the transformer thread are not modelled. Folds are evaluated one at a time.
- Floating point: doubles are reals, so rounding and overflow are not modelled. NaN and the infinities are kept only where the code tests for them.
- The iterative learners (matrix factorisation, SLIM, FM, BPR and the rest) and the particle-swarm search of DCR and DCW are not modelled: they are random-driven numerical optimisation. Only their context-matching functions and solution loading are modelled.
- Similarity measures (`buildCorrs`, happy.coding `Sims`) are not modelled: the similarity matrix is an input.
- The commons-math t-test is an input of ItemSplitting.
- The base ranking metrics (AUC, AP, nDCG, RR, precision, recall) come from an external library and are parameters. Perplexity and the diversity measures are not modelled.
- Math.sqrt in the Chen similarity is an abstract function. RMSE is stated as the MSE it is the root of.
- Random draws (`Randoms.uniform`, `Math.random`) are inputs, one per rating.
- HashMap and HashSet iteration orders are represented by a given list order. Only order-independent sums are taken over them (Sums.SumOfPermutation), and the line order of transformer output is not modelled.
- `Lists.sortMap` ties: the sort is taken to be stable. Which of two equally similar neighbours is kept is therefore decided by the given list order.
- SlopeOne's dev and card tables are given pointwise, as the value buildModel leaves in each cell. The in-place loops are not modelled.
- Chen's item_ContextsSimilarity is a single flat map from (item, c1, c2) to the similarity. The code's set of per-item maps, and which one a lookup finds first, is not modelled.
- Chen.Chen1MatchesReference: holds only when every situation has one condition per dimension (SituationsUniform). Without that hypothesis the similarity need not be symmetric, and the "rc,c" cache entry could disagree with a fresh computation.
- Chen.Chen1AsWrittenMatchesReference: holds only when every situation has one condition per dimension (SituationsUniform). Without that hypothesis the similarity need not be symmetric, and the "rc,c" cache entry could disagree with a fresh computation.
- Chen.Chen2MatchesReference: holds only when every situation has one condition per dimension (SituationsUniform). Without that hypothesis the similarity need not be symmetric, and the "rc,c" cache entry could disagree with a fresh computation.
- Chen.Chen2AsWrittenMatchesReference: holds only when every situation has one condition per dimension (SituationsUniform). Without that hypothesis the similarity need not be symmetric, and the "rc,c" cache entry could disagree with a fresh computation.
- Chen.Chen1Bounds: bounds the prediction only when every similarity involved is positive. With mixed signs a weighted mean has no such bound.
- ExactFiltering.PredictRatingMeaning and ExactFiltering.PredictRankingMeaning: state the result as "mean(a), or within mean(a) plus the deviations' range". The fallback taken on a non-positive prediction is not separated out further.
- ItemSplitting: the static fields shared by all instances are not modelled. A split pass is a function of its inputs.
- UISplitting, TensorRecommender and DataDAO.toSparseTensor are not modelled. They are a thin delegate, and code built on a tensor library that is not part of this model.
- The ContextRecommender constructor's field set-up (isCARSRecommender, numConditions, the empty-condition list) is not modelled: it only copies values the DataDAO model already defines.
- DataDAO.printSpecs and the logging-only branches are not modelled: they only write text.
- DataDAO: the double parse of the rating field is not modelled. A rating is given as a real.
- Averages.UserContextAverageMeaning: describes the predictor over the intended average (DataViews.ContextAverage). As written, the first prediction on a fresh DataDAO throws NullPointerException because idCtx is still null (see Findings).
- Averages.ContextAverageMeaning: describes the predictor over the intended average. The written code's NullPointerException on a fresh DataDAO is modelled separately (see Findings).
- DataViews.ContextAverageOfStored: states the intended average, which assumes idCtx has been built. DataViews.ContextAverageAsWritten is the written form that throws before then.
- DataViews.EmptySituationAverage: states the NumberFormatException of the intended average. As written, a fresh DataDAO throws NullPointerException before it gets that far.
- Text.Lower: lower-cases the ASCII letters A-Z only. Java's String.toLowerCase also maps non-ASCII letters and depends on the default locale, for example the Turkish dotted I.
- Text.ParseInt: accepts ASCII digits only. Java's Integer.valueOf also accepts other Unicode decimal digits, such as Arabic-Indic ones.
- DataLookups.ContextId: condition names are matched after ASCII lower-casing (Text.Lower), so two names that differ only in non-ASCII letter case stay distinct here, unlike in Java.
- DataTransformer.NormIsLowerTrim: states lower-casing as Text.Lower (ASCII only), not Java's locale-dependent toLowerCase.

## Findings

| source | as written | input that shows it | evidently intended | confidence | as-written member | corrected member |
|---|---|---|---|---|---|---|
| src/carskit/data/processor/DataDAO.java:791-796 | getRatingMin recomputes only while MaxRate is -1 | ratings {1, 5}, getRatingMax called first: getRatingMin returns -1 | test MinRate == -1, so the minimum is 1 | high, not executed | DataViews.RatingMinAsWritten, DataViews.RatingMinAsWrittenAfterMax | DataViews.RatingMin, DataViews.RatingMinAfterMax |
| src/carskit/generic/Recommender.java:585-607 | the ratings falling on a remapped (u, j) are collected in a HashMultimap, which keeps each value once, and their mean is stored | ratings 4, 4 and 1 on one key give 2.5 | the mean of every rating on the key, 3 | medium, not executed | Recommender.SplitTableAsWritten, Recommender.SplitTableAsWrittenDropsRepeats | Recommender.SplitTable, Recommender.SplitMatrixOf |
| src/carskit/alg/cars/transformation/hybridfiltering/DCR.java:349 | two boxed Integer condition ids compared with != (by reference) | situations 0 and 1 both with condition 200 on the masked dimension: no match | compare the ids by value: a match | high, not executed | DCR.ContextRelaxationAsWritten, DCR.AsWrittenMissesSharedCondition | DCR.ContextRelaxation, DCR.ContextRelaxationMeaning |
| src/carskit/alg/cars/transformation/hybridfiltering/DCW.java:334 | two boxed Integer condition ids compared with == (by reference) | situations 0 and 1 both with condition 200, weight [1]: similarity 0 | compare by value: similarity 1 | high, not executed | DCW.ContextSimilarityAsWritten, DCW.AsWrittenMissesSharedCondition | DCW.ContextSimilarity, DCW.ContextSimilarityMeaning |
| src/carskit/alg/cars/adaptation/independent/Chen2.java:141-145 | rate_uj is set from the local rate, still 0, so the fallback is always globalMean | a user who rated the item 4, no neighbours, globalMean 3: predicts 3 | rate_uj = train(u, j) when positive, else globalMean: predicts 4 | high, not executed | Chen.Chen2PredictAsWritten, Chen.Chen2FallbackCounterexample | Chen.Chen2Predict, Chen.Chen2MatchesReference |
| src/carskit/alg/cars/adaptation/independent/Chen1.java:136 | getContextsSimilarity loops over train.columns(), the item ids, as if they were users (also Chen2.java:45) | one user 0 rating item 5 with 5 and 1 under two conditions of one dimension: similarity 0 | loop over the users, train.rows(): similarity -1 | medium, not executed | Chen.SimilarityAsWritten, Chen.ColumnsAsUsersAsWritten | Chen.Similarity, Chen.ColumnsAsUsersCorrected |
| src/carskit/data/processor/DataDAO.java:1001-1003 | getUserContextAvg, getItemContextAvg and getContextAvg read idCtx, which only getContextId(int) initialises from ctxIds | a freshly loaded DataDAO, with nothing having called getContextId(int), asked for the average of a stored situation: NullPointerException | build idCtx (or read ctxIds.inverse()) first: the mean of the per-condition means | medium, not executed | DataViews.ContextAverageAsWritten, DataViews.FreshStoreAverageThrows | DataViews.ContextAverage, DataViews.ContextAverageOfStored |
