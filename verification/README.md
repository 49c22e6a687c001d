# YT-Updater core in Dafny

This project models the two pure cores of the YT-Updater scripts and proves properties about them.

**The delimited-section editor of `YT-Affiliate-Updater.py`.** A video description may hold an affiliate block: text between two copies of the delimiter, fourteen tildes. The editor extracts that block, splits the description around it, removes every such block, and writes a fresh one. It writes in place of the old block, or appends when there is none. Around the editor, `update_video_affiliate_links` builds the `videos().update` payload, and `preview_changes` shows the change without sending it.

**The backup loop of `backup_descriptions.py`.** `get_all_channel_videos` reads the uploads playlist page by page. `backup_videos` then:
- cuts the ids into batches of 50 and fetches each batch's details;
- writes one row per video, inserting or overwriting;
- counts videos as new, updated or failed;
- appends one backup-run record.

The model has these modules:

- `Wrappers` (`wrappers.dfy`): the `Option` type.
- `Seqs` (`seqs.dfy`): regrouping facts about concatenation and slicing, shared by the proofs.
- `Text` (`text.dfy`):
  - Python's `lstrip`, `rstrip` and `strip`, over exactly the characters for which `str.isspace()` holds.
  - The newline clean-up `re.sub(r'\n{3,}', '\n\n', …)`.
- `Sections` (`sections.dfy`):
  - The delimiter search and the four editing operations.
  - The regular expression `D(.*?)D` with `re.DOTALL` is replaced by an explicit scan. Its contract is the semantics of `re.search`: the leftmost match, and the shortest one among those that start there.
- `SectionProperties` (`section_properties.dfy`): round trip, idempotence, preservation of the surrounding text, a worked example (`Hello` / `old content` / `World` replaced by `new content`), and the lone-delimiter case.
- `AffiliateUpdater` (`affiliate_updater.dfy`): the fetch reply, the update payload, the update outcome and the preview.
- `Batching` (`batching.dfy`): batches of 50 ids.
- `Paging` (`paging.dfy`): the channel lookup and the playlist paging loop.
- `Backup` (`backup.dfy`):
  - The table is a map from video id to row, and the run log is a sequence.
  - The item loop is a fold (`SaveAll`).
  - A whole run is a reference function (`BackupRun`).
  - Methods run the loops the script runs and are proved equal to the fold.

The YouTube API is represented by its replies:
- the reply to the channel lookup;
- the replies to the successive playlist-page requests, in order;
- a function from an id batch to the reply to its detail request;
- for an update, whether the API accepted it.

The two `datetime.now()` readings of a backup run are parameters.

Behaviours of the code worth stating:

- `remove_affiliate_section` calls `re.sub` without a count. It deletes every section, not only the first.
- It strips first and then squeezes newline runs.
- The round trip `extract(add(d, c)) == strip(c)` and idempotence of `add` hold under two conditions:
  - the content holds no delimiter;
  - the description holds either no delimiter or at least one complete section.

  A description that holds a single delimiter can break both. For the description that is exactly one delimiter, idempotence fails for every content, and the round trip fails for every content that is not blank (`SectionProperties.LoneMarkerIsPairedWithNewSection`).
- The update payload copies the title and category as they are, and:
  - missing tags become `[]`;
  - a missing or empty `defaultLanguage` is left out.
- A failed playlist page or detail request does not abort the backup. Paging stops and keeps the items gathered so far. A failed batch contributes no items. Provided at least one id was listed, the run record is still written, counting all listed ids. A failure on the first page lists no ids, so the run ends without a record.
- `preview_changes` prints rather than returns. The model returns what it prints.

## Model

| member | source | states |
|---|---|---|
| Text.LStrip | YT-Affiliate-Updater.py:110 | `lstrip` returns a suffix of its input that is empty or starts with a non-space |
| Text.LStripDropsSpace | YT-Affiliate-Updater.py:110 | everything `lstrip` drops is whitespace, so with `LStrip` the result is the one maximal stripped suffix |
| Text.RStrip | YT-Affiliate-Updater.py:108 | `rstrip` returns a prefix of its input that is empty or ends with a non-space |
| Text.RStripDropsSpace | YT-Affiliate-Updater.py:108 | everything `rstrip` drops is whitespace |
| Text.Strip | YT-Affiliate-Updater.py:98 | `strip` never lengthens and leaves whitespace at neither end |
| Text.LStripUnique | YT-Affiliate-Updater.py:110 | `lstrip(w + t)` is `t` for whitespace `w` and a `t` that starts with a non-space |
| Text.RStripUnique | YT-Affiliate-Updater.py:108 | `rstrip(t + w)` is `t` for whitespace `w` and a `t` that ends with a non-space |
| Text.StripPadded | YT-Affiliate-Updater.py:134 | stripping content padded with whitespace on both sides gives the stripped content |
| Text.StripTrimmed | YT-Affiliate-Updater.py:98 | `strip` leaves text without surrounding whitespace unchanged |
| Text.CollapseNewlines | YT-Affiliate-Updater.py:122 | the newline clean-up leaves no three newlines in a row, never lengthens, and keeps the first and last character |
| Text.CollapseClean | YT-Affiliate-Updater.py:122 | text without three newlines in a row is left unchanged |
| Text.CollapseIdempotent | YT-Affiliate-Updater.py:122 | applying the clean-up twice gives the same as once |
| Text.CollapseKeepsText | YT-Affiliate-Updater.py:122 | the clean-up only ever removes newline characters: all other characters are kept, in order |
| Text.CollapseSqueeze | YT-Affiliate-Updater.py:122 | three newlines collapse exactly as two newlines in the same place; with `CollapseClean` this makes every run of three or more newlines exactly two and leaves all else in place |
| Text.CollapseRun | YT-Affiliate-Updater.py:122 | a run of two or more newlines, of any length, becomes exactly `"\n\n"` in front of the collapsed rest |
| Sections.FindMarker | YT-Affiliate-Updater.py:95 | finds the first delimiter at or after a position, or reports that there is none |
| Sections.FindSection | YT-Affiliate-Updater.py:94-95 | finds the leftmost-then-shortest match of `D(.*?)D` when one exists, and reports no match exactly when there is none |
| Sections.SearchMatchIsFirstMarkers | YT-Affiliate-Updater.py:94-95 | the regex match is the first delimiter paired with the first delimiter at least 14 characters after it, both directions |
| Sections.SearchMatchUnique | YT-Affiliate-Updater.py:95 | there is at most one search match |
| Sections.FramedSection | YT-Affiliate-Updater.py:94-95 | in `p + D + m + D + q` with no delimiter in `p` or `m` and no tilde ending either, the match is the two delimiters shown |
| Sections.ExtractSection | YT-Affiliate-Updater.py:92-99 | `None` exactly when the description has no match; otherwise the stripped text between the delimiters of the search match |
| Sections.SplitAroundSection | YT-Affiliate-Updater.py:101-114 | no section exactly when there is no match, and then `(rstrip(d), None, "")`; `before` ends and `after` starts with a non-space |
| Sections.CutAt | YT-Affiliate-Updater.py:106-111 | cutting at a found pair yields a section, a right-stripped `before` and a left-stripped `after` |
| Sections.SplitAtSearchMatch | YT-Affiliate-Updater.py:104-111 | at the search match the split is `rstrip` of the text before it, `strip` of the inside and `lstrip` of the text after |
| Sections.MatchDecomposes | YT-Affiliate-Updater.py:104-110 | a match splits the description as `before' + D + inner + D + after'` |
| Sections.SplitAtFound | YT-Affiliate-Updater.py:104-111 | once the scan has found the pair, the split cuts exactly there |
| Sections.SplitAgreesWithExtract | YT-Affiliate-Updater.py:92-111 | the middle part of the split is what extraction returns, for every description |
| Sections.RemoveAtFound | YT-Affiliate-Updater.py:119 | `re.sub` keeps the text before the first match and carries on after its closing delimiter |
| Sections.RemoveWithoutMatch | YT-Affiliate-Updater.py:119 | text without a match is returned unchanged by the substitution |
| Sections.RemovedHasNoMatch | YT-Affiliate-Updater.py:118-119 | after the substitution the text holds no section at all |
| Sections.RemoveShortens | YT-Affiliate-Updater.py:119 | the substitution never lengthens the text |
| Sections.RemoveAllSections | YT-Affiliate-Updater.py:118-119 | the `re.sub` that deletes every non-overlapping section, left to right; what it guarantees is stated by `RemoveAtFound`, `RemoveWithoutMatch`, `RemovedHasNoMatch`, `RemoveShortens` and `RemoveKeepsTextBefore` |
| Sections.RemoveFrom | YT-Affiliate-Updater.py:119 | one step of the substitution: the text before the found section, then the substitution resumed after its closing delimiter (`RemoveAtFound`) |
| Sections.RemoveKeepsTextBefore | YT-Affiliate-Updater.py:118-119 | the text before the first section is kept verbatim; the section and both delimiters are gone |
| Sections.RemoveSection | YT-Affiliate-Updater.py:116-123 | the result has no surrounding whitespace and no three newlines in a row |
| Sections.RemoveSectionWithoutMatch | YT-Affiliate-Updater.py:116-123 | on a description without a section, removal only strips and squeezes newlines |
| Sections.AddSection | YT-Affiliate-Updater.py:125-141 | the result starts with the kept text before the old section and ends with the kept text after it |
| Sections.Assemble | YT-Affiliate-Updater.py:131-139 | the new description starts with `before` and ends with `after` |
| SectionProperties.BeforeHasNoMarker | YT-Affiliate-Updater.py:108-114 | in a well-formed description the text kept before the section holds no delimiter |
| SectionProperties.SplitFramed | YT-Affiliate-Updater.py:101-111 | for `p` and `m` that hold no delimiter and do not end in a tilde, splitting `p + D + m + D + q` gives `(rstrip(p), strip(m), lstrip(q))` |
| SectionProperties.SplitOfAssembled | YT-Affiliate-Updater.py:125-141 | for delimiter-free `before` and content, a `before` empty or ending in a non-space and an `after` empty or starting with a non-space, splitting the assembled text gives back `before`, `strip(content)` and `after` |
| SectionProperties.SplitAfterAdd | YT-Affiliate-Updater.py:125-141 | for a well-formed description (no delimiter, or at least one complete section) and delimiter-free content, the split after a write finds the old `before` and `after` and the new content as the section |
| SectionProperties.ExtractAfterAdd | YT-Affiliate-Updater.py:92-141 | round trip: for a well-formed description (no delimiter, or at least one complete section) and delimiter-free content `c`, the section read back after writing `c` is `strip(c)` |
| SectionProperties.AddIdempotent | YT-Affiliate-Updater.py:125-141 | for a well-formed description (no delimiter, or at least one complete section) and delimiter-free content, writing the same content twice gives the same description as writing it once |
| SectionProperties.AddIsWellFormed | YT-Affiliate-Updater.py:125-141 | every result of a write, whatever the description and content, holds a complete section, so it is well-formed and later writes are covered |
| SectionProperties.AddAtSearchMatch | YT-Affiliate-Updater.py:125-141 | with a section present, the new section replaces it between the right-stripped text before and the left-stripped text after |
| SectionProperties.AddWithoutSection | YT-Affiliate-Updater.py:112-135 | without a section, the result is `rstrip(d) + "\n\n" + D + "\n" + c + "\n" + D` |
| SectionProperties.ReplaceExample | YT-Affiliate-Updater.py:125-141 | a worked example: `Hello` / `old content` / `World` replaced by `new content` gives the same text with only the section replaced |
| SectionProperties.LoneMarkerFirstWrite | YT-Affiliate-Updater.py:112-141 | a lone delimiter survives the first write, in front of the fresh section |
| SectionProperties.LoneMarkerIsPairedWithNewSection | YT-Affiliate-Updater.py:112-141 | for the description that is exactly one delimiter and any content `c`, reading back yields an empty section (not `strip(c)` when that is non-empty), and a second write changes the description again |
| SectionProperties.RemoveFramed | YT-Affiliate-Updater.py:118-119 | for `p` and `m` that hold no delimiter and do not end in a tilde, removal from `p + D + m + D + q` keeps `p`, deletes the section with both delimiters, and goes on with `q` |
| SectionProperties.RemoveOfAssembled | YT-Affiliate-Updater.py:118-119 | for delimiter-free `before` and content, removing the sections of freshly appended text leaves `before + "\n\n"` |
| SectionProperties.StripOfRStripped | YT-Affiliate-Updater.py:122 | blank lines appended after `rstrip` do not survive `strip` |
| SectionProperties.RemoveUndoesAdd | YT-Affiliate-Updater.py:116-141 | for a description and content that both hold no delimiter at all, removing the freshly added section gives what cleaning the original gives |
| AffiliateUpdater.GetVideoDetails | YT-Affiliate-Updater.py:73-90 | a video exactly when the request succeeded with a non-empty item list, and then its first item |
| AffiliateUpdater.BuildUpdateRequest | YT-Affiliate-Updater.py:169-181 | the payload carries the new description and the old title and category; tags default to `[]`; `defaultLanguage` is present exactly when the current one is non-empty |
| AffiliateUpdater.UpdateVideoAffiliateLinks | YT-Affiliate-Updater.py:143-194 | a failed fetch returns false and sends nothing; otherwise the request sent is exactly the payload `BuildUpdateRequest` builds from the fetched snippet, for this id, and success is whether the API accepted it |
| AffiliateUpdater.PreviewChanges | YT-Affiliate-Updater.py:196-222 | nothing exactly when the fetch fails; otherwise the preview shows the video's title, the current description's length, the section extraction finds in it (when one is shown) and the new content as the new section |
| AffiliateUpdater.SentDescriptionHoldsContent | YT-Affiliate-Updater.py:165-174 | for a fetched description that is well-formed (no delimiter, or at least one complete section) and delimiter-free content, the sent description holds the stripped new content as its section |
| AffiliateUpdater.UpdateIsIdempotent | YT-Affiliate-Updater.py:143-181 | for a well-formed current description (no delimiter, or at least one complete section) and delimiter-free content, updating the video again after the first update was applied sends the identical request |
| AffiliateUpdater.PreviewMatchesUpdate | YT-Affiliate-Updater.py:203-206 | when the fetch succeeds, the preview's new length is the length of the description the update sends |
| AffiliateUpdater.PreviewShowsExistingSection | YT-Affiliate-Updater.py:209-217 | when the fetch succeeds, the preview shows a current section exactly when the description has a section whose stripped text is non-empty |
| Batching.BatchesCover | backup_descriptions.py:188-190 | joining the batches gives back the id list, in order |
| Batching.Batches | backup_descriptions.py:189-190 | the slices `video_ids[i:i + 50]` for `i` in `range(0, n, 50)`; `BatchesCover`, `BatchesSizes` and `BatchesAreSlices` state what they are |
| Batching.BatchesSizes | backup_descriptions.py:188-190 | there are `BatchCount(n)` batches; each holds 1 to 50 ids; all but the last hold exactly 50 |
| Batching.BatchCountIsCeiling | backup_descriptions.py:191-192 | the batch count is `(n + 49) // 50`, the total the script reports |
| Batching.BatchIndexInRange | backup_descriptions.py:189 | the loop index `50 * b` is inside the list exactly while batch `b` exists |
| Batching.BatchesAreSlices | backup_descriptions.py:189-190 | batch `j` is the slice `ids[50j : 50j + 50]` the loop takes |
| Batching.NextBatch | backup_descriptions.py:189-190 | each loop step takes the first batch of the ids left |
| Batching.ThreePageScenario | backup_descriptions.py:188-197 | 112 ids are fetched in three requests of 50, 50 and 12 ids |
| Paging.FetchPages | backup_descriptions.py:127-149 | paging stops at the first page without a token or the first failed request, and returns the items of the pages read, in order |
| Paging.PagesShift | backup_descriptions.py:139 | the items of one more page come first, then those of the following pages |
| Paging.StopIsUnique | backup_descriptions.py:127-149 | there is exactly one point where paging stops |
| Paging.ErrorReturnsGathered | backup_descriptions.py:147-149 | a failed page request returns the items of the pages read before it |
| Paging.LastPageStops | backup_descriptions.py:143-145 | paging ends with the first page without a token, after taking its items |
| Paging.ChannelVideos | backup_descriptions.py:99-152 | a failed or empty channel lookup gives no videos; otherwise the items of the pages read up to where paging stops |
| Paging.VideoIds | backup_descriptions.py:178 | one id per playlist item, in order |
| Backup.GetVideoDetails | backup_descriptions.py:154-166 | a failed detail request gives no items; otherwise the reply's items |
| Backup.SaveVideo | backup_descriptions.py:200-244 | one item is counted exactly once; a malformed item changes no row, adds one to the error count and leaves the new and updated counts as they were; otherwise its row is written with `''`/`[]` defaults, counted updated if its id was stored and new if not, and no other row changes |
| Backup.RowOf | backup_descriptions.py:211-216 | each text field of the row is the snippet's value or `''` when it is missing, the tags are the snippet's or `[]`, and the row carries the run's timestamp |
| Backup.SaveAll | backup_descriptions.py:200-244 | the item loop as a fold of `SaveVideo` over the items; its properties are `SaveAllCounts`, `SaveAllRows`, `NewCountIsRowsAdded`, `SaveAllConcat`, `LastOccurrenceWins` and `ClassifiedNew` |
| Backup.FetchedItems | backup_descriptions.py:189-200 | the items the detail requests return, batch after batch, a failed batch giving none (`FetchedItemsOrigin`, `FailedBatchIsSkipped`) |
| Backup.SaveAllCounts | backup_descriptions.py:183-244 | new + updated + errors grows by exactly the number of items |
| Backup.SaveAllRows | backup_descriptions.py:218-234 | no row is deleted; the keys become the old keys plus the saved ids; other rows are unchanged |
| Backup.NewCountIsRowsAdded | backup_descriptions.py:206-234 | the new-video counter grows by exactly the number of rows added |
| Backup.SaveAllConcat | backup_descriptions.py:188-244 | saving `a + b` is saving `a`, then `b` |
| Backup.LastOccurrenceWins | backup_descriptions.py:218-228 | a row holds the fields of its id's last saveable occurrence |
| Backup.ClassifiedNew | backup_descriptions.py:206-234 | an item counts as new exactly when it is saveable and its id was neither stored nor saved earlier in the run |
| Backup.RepeatedIdIsUpdated | backup_descriptions.py:206-228 | an id already saved earlier in the same run counts as updated |
| Backup.FetchedItemsOrigin | backup_descriptions.py:197-200 | every fetched item came from the successful detail request of one batch |
| Backup.FailedBatchIsSkipped | backup_descriptions.py:164-200 | a batch whose request fails leaves the table and counters as they were |
| Backup.BackupRun | backup_descriptions.py:168-252 | with no videos listed, the database and counters stay untouched and no record is written |
| Backup.Recorded | backup_descriptions.py:247-252 | the final table and counters, with one run record appended; `RunIsLogged` states its contents |
| Backup.SaveAndRecord | backup_descriptions.py:178-252 | a run over a non-empty id list: save every fetched item, then append the run record (`RunIsLogged`, `RunCountsEveryItem`, `RunKeepsRows`) |
| Backup.RunIsLogged | backup_descriptions.py:247-252 | a run appends exactly one record with all listed ids as `videos_count`, the run's new and updated counts and `"Full backup"`, after the old records |
| Backup.RunCountsEveryItem | backup_descriptions.py:183-244 | new + updated + errors equals the number of items the detail requests returned |
| Backup.RunNewCountIsRowsAdded | backup_descriptions.py:206-234 | a run's new count is the number of rows it added |
| Backup.RunKeepsRows | backup_descriptions.py:218-234 | a run keeps every stored row, adds those of the saved items, and changes no row it did not save |
| Backup.SaveOne | backup_descriptions.py:200-244 | the loop body's imperative updates compute exactly the fold step |
| Backup.SaveVideos | backup_descriptions.py:200-244 | the item loop over one batch computes the fold over its items |
| Backup.SaveNextBatch | backup_descriptions.py:188-200 | one more batch continues the fold over the earlier batches |
| Backup.BatchLoopStep | backup_descriptions.py:188-200 | each turn of the batch loop takes the next batch and continues the fold |
| Backup.SaveBatches | backup_descriptions.py:188-244 | the batch loop computes the fold over all fetched items of all batches |
| Backup.BackupVideos | backup_descriptions.py:168-252 | the script's loops compute the reference run; earlier run records are kept and at most one is added |

## Left out

- Authentication (`authenticate`, token files, console fallback) is an interaction with Google's OAuth library and has no logic to model.
- The API client is not modelled. Every request is represented by its reply, and a failed request by an error reply.
- SQLite is not modelled: SQL text, cursors, commits, schema creation and `show_stats`. The table is a map and the run log a sequence.
- Tags are kept as a sequence of strings; their `json.dumps` serialisation is not modelled.
- `datetime.now()` is a parameter. All rows of one run share one timestamp, and the run record has its own.
- Printing, `debug_print` and the `DEBUG` flag are not modelled. So are progress lines, `input()` confirmations, `main` and `load_affiliate_content_from_file`.
- `YT-Updater.py` and `YT-Reader.py` are not part of this model. The first is a thin API wrapper and the second reads data only.
- The regular-expression engine is not modelled. The two patterns are replaced by explicit scans. The contract of the section search is the semantics of `re.search`. For `\n{3,}`, `Text.CollapseClean` and `Text.CollapseSqueeze` together fix the result as the rewriting of every run of three or more newlines into two.
- Whitespace is the fixed set of characters for which `str.isspace()` holds. Unicode data beyond that set is not consulted.
- AffiliateUpdater.PreviewChanges: the 200-character truncation and the `...` suffix of the printed sections are not modelled. The preview carries the whole texts.
- AffiliateUpdater.UpdateVideoAffiliateLinks: the fetched snippet is assumed to carry `title`, `description` and `categoryId`. A missing key raises a `KeyError` that the function does not catch; that case is not modelled.
- AffiliateUpdater.GetVideoDetails: the `if not video_data` test is modelled as "no item"; a returned item is never an empty dict.
- Paging.FetchPages: the paging loop is modelled over a finite list of replies. A list that ends while the last page still carries a token stands for the pages that were read.
- Backup.SaveVideo: failures are modelled only as items without an `id` or a `snippet`. Failures of the database writes themselves are not modelled.
- The error handler at backup_descriptions.py:242-244 prints `video_id`. It can show a stale id, or raise when no id has been bound yet. The model counts every such item as an error and goes on.
- SectionProperties.ExtractAfterAdd: the round trip is proved only for content without a delimiter and a description that holds no delimiter or at least one complete section. `LoneMarkerIsPairedWithNewSection` shows that it can fail otherwise: for the description that is exactly one delimiter and content that is not blank.
- SectionProperties.AddIdempotent: proved under the same two conditions as the round trip.
