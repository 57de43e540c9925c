# tapectl, modelled and proved in Dafny

tapectl archives directories to LTO tape. This project models the parts of it
where a mistake is hard to see and costly: the program that fills a tape past
the drive's early warning and reads it back, the planner of one tape for a
location, and the configuration code that decides what may be written. Each is
proved against a specification of its own. `dafny verify dfyconfig.toml` checks
the whole project.

## What is modelled

**The fill writer and its readback** (`scripts/lto6-fill-writer.py`).
`Tape` is the in-memory drive: a sequence of records and a head. What the drive
does with each write, filemark and READ POSITION is an arbitrary function, and
so is the stop flag, so a theorem about a run is about every drive and every
interruption. `FillRecord` is what a run records, with the meaning of a record
on a tape. `FillWriter` is the writer: fill, slice with retries, filemark, seal,
filemark, walk to the hard end. `FillReader` is the readback by LOCATE and by
rewind and SPACE, whose list of checks is proved to be one function of tape and
record. `FillRun` joins them into the theorems about whole runs:
an honest drive raises no alarm, a passing readback pins the tape, and on a
drive that may keep what it refuses a passing slice shows that it kept nothing.

**The plan of one tape** (`src/for_location.rs`, `src/volume/layout_model.rs`).
`Placement` is the budget's placement of owed runs, whole units and sets that
may span, proved equal to a closed form on sums. `ForLocation` is the next-fit
plan over it, its agreement with what the write takes, and the order of the
read-back commands. `ReadBack` is the greedy cover of a set from holder tapes.

**Configuration** (`src/config.rs`, `src/config_edit.rs`). `SliceCap` is the
largest sealable slice size, `Drives` the resolution of a drive, `KeyPath` the
dotted keys, `ValueSearch` the search over readings of a value.

**Smaller cores.** `EditDistance` and `NearestLabels` (`src/error.rs`),
`CivilDate` (`build.rs`), `Filler` (`examples/short_seal_filler.rs`).

## What the proofs found

- The readback is not free of false alarms. `--route auto` falls back from
  LOCATE to spacing only when the LOCATE to the slice fails
  (`scripts/lto6-fill-writer.py:740-780`). With no slice there is no such LOCATE,
  so with `--slice-blocks 0` (or less) and `--to-hard-end` a drive that answers
  READ POSITION and cannot LOCATE is failed for the blocks of the walk. The writer
  takes any integer there (`scripts/lto6-fill-writer.py:1608`); the script that
  calls it refuses zero (`scripts/lto-profile.sh:150-151`). `FillRun.MayAlarm` is
  the exact condition on the options: without it no honest drive raises an alarm
  (`FillRun.Scenario`), and for every choice of options that meets it there is an
  honest drive that does (`FillRun.FalseAlarm`).
  `FillRun.WalkWithoutSliceNeedsLocate` is one such run. Asking for `--route locate`
  on a drive that cannot LOCATE is the only other way to meet it.
- On the LOCATE route a slice whose first block differs is looked for at the
  addresses around it, and the objects after the slice are then read from where
  that left the tape (`scripts/lto6-fill-writer.py:916-935`, `989-996`). They are
  read behind the slice only under the condition of `FillReader.ReadBehindIff`;
  otherwise objects that are all there are reported missing
  (`FillReader.ObjectsMissed`). The readback has a FAIL for the block either way.
- Past ten ambiguous slots the second reading tried is documented as all
  strings (`src/config_edit.rs:843-845`). The mask has 32 bits, so it is so
  exactly for at most 32 ambiguous slots. `ValueSearch.AllStringIff` proves it,
  `ValueSearch.ThirtyThreeSlots` shows it fail, and the model follows the code.
- `max_slice_size_within` is documented as `None` when not even the seal fits,
  and the refusal says the same (`src/config.rs:570-571`, `1304-1306`). It is
  `None` exactly when the seal and one tape block do not fit
  (`SliceCap.NoMaximumIff`), and there are rooms the seal alone fits in
  (`SliceCap.SealAloneFitsYetNoMaximum`).
- A placement's order is documented to hold no refused unit
  (`src/volume/layout_model.rs:633-635`). An owed run that is refused is in it
  (`src/volume/layout_model.rs:415-421`): exactly when the drive has no bound and
  the owed runs pass the ceiling (`Placement.OrderListsRefusedIff`), as at the input
  of `Placement.RefusedRunIsListed`. Such a plan carries an error
  (`Placement.ErrorsIff`), and one without an error lists just the units on the tape
  (`Placement.OrderWithoutErrors`). The model follows the code.

## Model

| member | source | states |
|---|---|---|
| FillRun.Scenario | scripts/lto6-fill-writer.py:1320-1342 | Over every drive, stop schedule, option and route: on an honest drive the tape holds exactly what the record claims, and the readback has no FAIL unless the options may alarm, and then exactly when no needed LOCATE is missing; on any drive a passed slice is on the tape, keystream blocks, marks and zero-padded seal; on a drive that drops nothing but may keep what it refuses, the tape is fill, slice, marks, seal and walk with repeats only, and where the slice passes with an object after it, fill, slice and objects stand there exactly; every outcome recorded is what the drive answered to that attempt, a stop reported was seen at one of the run's own looks; which route is taken, and every check of the report; what each exit code means, on the drive's own answer: 5 is a short count or an error other than a full tape, and a slice is begun only after a write of nothing or a full tape; every step, the walk and its byte bound included, is taken unless such a stop or an attempt of this run not accepted prevents it |
| FillRun.VerifyTape | scripts/lto6-fill-writer.py:1556-1576 | For any tape and any record: every check noted, in order, with its status; which route is taken; no FAIL if and only if the tape is as the record says by that route; no FAIL implies the slice checks passed; passed slice checks pin the slice, the objects after it and the seal's bytes; a passed fill tail, and a spacing route with no FAIL, pin the last `tail` fill blocks or all of fewer, with only data before them, reached by SPACE counts that each fit 24 signed bits and sum to the blocks before them |
| FillRun.TailMeaning | scripts/lto6-fill-writer.py:786-813 | The tail read is the last `tail` blocks of the fill, each its stream block, or the whole of a shorter fill |
| FillRun.RepeatedPinned | scripts/lto6-fill-writer.py:889-968 | On a tape whose slice, marks and seal may be repeated, a slice found with an object after it leaves no room for a repeat: the tape begins with exactly the fill, the slice and the objects reported |
| FillRun.BodyIsExact | scripts/lto6-fill-writer.py:889-968 | A slice found where the fill ends, with a mark or a seal behind it, means no refused block was kept before that object |
| FillRun.HonestIsClean | scripts/lto6-fill-writer.py:740-1016 | The tape an honest drive leaves is clean on every route, if and only if the readback does not need a LOCATE the drive lacks |
| FillRun.WalkWithoutSliceNeedsLocate | scripts/lto6-fill-writer.py:740-780 | The record of one run with `--slice-blocks 0`, true of its tape and with every step taken, whose tape the readback on auto fails |
| FillRun.FalseAlarm | scripts/lto6-fill-writer.py:740-780 | For every choice of options that may alarm, an honest drive whose run ends well, whose record is true of its tape, and whose tape the readback fails |
| FillRun.MissingOnlyIfMayAlarm | scripts/lto6-fill-writer.py:740-780 | A run that leaves a needed LOCATE missing was given options that may alarm |
| FillRun.MissingIfMayAlarm | scripts/lto6-fill-writer.py:740-780 | With such options a run that nothing stops and no second refusal meets leaves a needed LOCATE missing |
| FillRun.HonestIsPinned | scripts/lto6-fill-writer.py:889-968 | On an honest tape the slice and what follows it are where the record puts them; a stream block is never taken for a seal |
| FillRun.HonestSpacing | scripts/lto6-fill-writer.py:782-846 | An honest tape passes everything the spacing route asks, with or without recorded positions |
| FillRun.HonestLocate | scripts/lto6-fill-writer.py:740-780 | An honest tape passes everything the LOCATE route asks, if and only if the drive can LOCATE or nothing needs it |
| FillRun.HonestWalk | scripts/lto6-fill-writer.py:998-1016 | The walk's first and last blocks are found on an honest tape, if and only if the drive can LOCATE or there is nothing to locate |
| FillRun.HonestFsf | scripts/lto6-fill-writer.py:970-987 | On an honest tape one filemark on from the last slice block stands the seal |
| Tape.FakeTape.constructor | scripts/lto6-fill-writer.py:1218-1224 | A blank tape with the head at its start |
| Tape.FakeTape.Put | scripts/lto6-fill-writer.py:1225-1228 | Writing truncates what stood after the head |
| Tape.FakeTape.Write | scripts/lto6-fill-writer.py:1230-1244 | Each verdict's answer, and whether the block is on the tape, by attempt number and blocks written |
| Tape.FakeTape.WriteMark | scripts/lto6-fill-writer.py:1245-1254 | Each verdict's answer, and whether the mark is on the tape |
| Tape.FakeTape.SpaceMark | scripts/lto6-fill-writer.py:1259-1262 | The head lands past the next mark, or at the end of data |
| Tape.FakeTape.SpaceBlocks | scripts/lto6-fill-writer.py:1265-1275 | Succeeds if and only if the next `count` records are all data, and then stands past them; else past the mark that stopped it, or at the end of data |
| Tape.FakeTape.Read | scripts/lto6-fill-writer.py:1277-1285 | The record under the head, or nothing at the end of data |
| FillRecord.TrailingRunIsMaximal | scripts/lto6-fill-writer.py:402-454 | The run counted is a window of writes of nothing or of a full tape at the end, and no longer one is |
| FillRecord.LongestRunIsLongest | scripts/lto6-fill-writer.py:402-454 | The longest run is some window of consecutive such writes, and no window is longer |
| FillRecord.HeadOfPadded | scripts/lto6-fill-writer.py:497-531 | Splitting a zero-padded seal at its first NUL gives its text back |
| FillRecord.PaddedOfHead | scripts/lto6-fill-writer.py:889-968 | A block that splits into a text and NULs alone is that text zero-padded |
| FillRecord.StreamRepeatsTheFile | scripts/lto6-fill-writer.py:172-174 | Block i of any round of the stream is block i of the file |
| FillRecord.RunIsTheFile | scripts/lto6-fill-writer.py:172-174 | A run of the file's length from the start of a round is the file's blocks in order |
| FillRecord.RefusalsCounted | scripts/lto6-fill-writer.py:202-203 | The refusals counted are the writes of nothing and those that say the tape is full |
| FillWriter.RunLengths | scripts/lto6-fill-writer.py:206-213 | The run-length list expands to the outcome list, with no empty run and no two neighbours alike |
| FillWriter.Totals | scripts/lto6-fill-writer.py:455-458 | Each outcome's total is the number of times it occurs, and no other outcome has one |
| FillWriter.ExpandPrefix | scripts/lto6-fill-writer.py:463-467 | The runs kept when the list is cut expand to a prefix of the outcomes |
| FillWriter.Describe | scripts/lto6-fill-writer.py:455-467 | The record agrees with the outcome list: counts, longest run, totals, the number of runs, and the first 400 of the canonical runs |
| FillWriter.CanonicalIsUnique | scripts/lto6-fill-writer.py:206-213 | Two canonical run-length lists of the same outcomes are the same list |
| FillWriter.DescribedOnce | scripts/lto6-fill-writer.py:455-467 | One record describes an outcome list: counts, longest run, totals, number of runs and the runs kept |
| FillWriter.RunsTell | scripts/lto6-fill-writer.py:463-467 | The outcomes can be read off the runs kept: all of up to 400 runs, and a prefix of more |
| FillWriter.SameAnswers | scripts/lto6-fill-writer.py:402-454 | The drive's answers to as many attempts are one list |
| FillWriter.ToldOnce | scripts/lto6-fill-writer.py:402-467 | The drive and the number of attempts leave one record of a stretch of blocks |
| FillWriter.HonestyMeaning | scripts/lto6-fill-writer.py:1230-1244 | A verdict is honest if and only if the answer is ok exactly when the block is put on the tape; it drops nothing if and only if ok means put there |
| FillWriter.MarkHonestyMeaning | scripts/lto6-fill-writer.py:1245-1254 | The same of a mark |
| FillWriter.Writer.WriteBuf | scripts/lto6-fill-writer.py:277-289 | The outcome is the drive's answer to one attempt; on an honest drive the block is appended if and only if the outcome is ok |
| FillWriter.Writer.BlockBuf | scripts/lto6-fill-writer.py:291-295 | The cached buffer is always the keystream block it claims to be |
| FillWriter.Writer.Fill | scripts/lto6-fill-writer.py:332-375 | On an honest drive exactly the first g keystream blocks are appended, within the cap; on one that drops nothing, with at most the refused block behind them; every one of the g attempts was answered ok and the one after them, if made, with the event; it ends at that answer, as a refusal if and only if it is a write of nothing or a full tape, at a cap one more block would pass, or at a stop seen at one of its g+1 looks |
| FillWriter.Writer.AttemptBlocks | scripts/lto6-fill-writer.py:402-454 | The stop reason is the one the outcomes show and the first there was, complete only after an accepted block or with nothing to do; counts and longest run are those of the outcome list; one list entry per attempt, each the answer the drive gave it; an interruption was seen at one of its own looks |
| FillWriter.Writer.WriteBlocks | scripts/lto6-fill-writer.py:378-467 | On an honest drive keystream blocks g0 to g0+accepted-1 are appended in order despite retries; on one that may keep what it refuses they are there with repeats and none skipped; complete if and only if all were accepted; against any drive at most nmax times the refusal limit attempts |
| FillWriter.NoneSkipped | scripts/lto6-fill-writer.py:402-454 | On a drive that keeps all it accepts, every accepted block is among the records, and nothing else but a copy of the block in hand |
| FillWriter.RepeatsNext | scripts/lto6-fill-writer.py:402-454 | One attempt keeps the records in step with the stream, whether a refused block was kept or not |
| FillWriter.AttemptBound | scripts/lto6-fill-writer.py:402-454 | No block costs more attempts than the refusal limit, whatever the drive does |
| FillWriter.StopMeaning | scripts/lto6-fill-writer.py:402-454 | A short count, or an error other than a full tape, is the last outcome and the stop reason; a run of refusals is that many writes of nothing or of a full tape and no more |
| FillWriter.RetriedMeaning | scripts/lto6-fill-writer.py:469-531 | Only a write of nothing or a full tape with nothing left behind is tried again, and always while the limit allows |
| FillWriter.Writer.Filemark | scripts/lto6-fill-writer.py:469-495 | Only marks are added, at most one per attempt and one in all while READ POSITION answers; each attempt listed is the drive's answer to it; retried exactly while refused with nothing left behind, up to the limit |
| FillWriter.Writer.Seal | scripts/lto6-fill-writer.py:497-531 | Only copies of the zero-padded seal are added, at most one per attempt and one in all while READ POSITION answers; each attempt listed is the drive's answer to it; retried exactly while refused with nothing left behind, up to the limit |
| FillWriter.Writer.FilemarkSealFilemark | scripts/lto6-fill-writer.py:589-591 | All three are tried, the seal names this fill and slice, nothing already written is touched, and at most three records are added while READ POSITION answers |
| FillWriter.ObjectsRepeated | scripts/lto6-fill-writer.py:589-591 | Marks and seal written after a slice with repeats leave a tape of that slice and copies of those objects, one at least of each reported and one at most while READ POSITION answers |
| FillWriter.WalkRepeated | scripts/lto6-fill-writer.py:602-618 | A walk with repeats goes on from where the slice's last block stopped |
| FillWriter.Writer.Slice | scripts/lto6-fill-writer.py:578-581 | The slice continues the keystream where the fill stopped, counting the refusal that ended it |
| FillWriter.Writer.PastWarning | scripts/lto6-fill-writer.py:559-600 | The record is true of an honest drive's tape, and true up to repeats on one that drops nothing; every outcome recorded is the drive's answer to that attempt; the slice, the seal and the walk are taken as the options ask unless a stop was seen at one of these looks or one of these attempts was not accepted |
| FillWriter.Writer.HardEnd | scripts/lto6-fill-writer.py:602-618 | Bytes past the first refusal stay at or below the larger of the cap and the slice; the cap is the reason only when one more block would pass it |
| FillWriter.Writer.Execute | scripts/lto6-fill-writer.py:628-668 | The whole run keeps the record true of an honest drive's tape, and true up to repeats on one that drops nothing; how often the stop flag is looked at; the cause of each exit code; the fill's attempts all accepted, the refusal that ends it, and every step after it with the drive's own answers and the walk's byte bound |
| FillReader.Reader.Read | scripts/lto6-fill-writer.py:719-727 | The kind of the record under the head, its bytes, and the head one on |
| FillReader.Reader.ReadSlice | scripts/lto6-fill-writer.py:895-916 | No block bad and none missing if and only if the tape holds the keystream run there; how many differ, whether it is read to its end, and the first and last block's status |
| FillReader.Reader.ReadReported | scripts/lto6-fill-writer.py:934-961 | Objects and seal content agree if and only if the tape holds exactly the reported marks and the zero-padded seal; the content is that of the last seal read |
| FillReader.Reader.SliceChecks | scripts/lto6-fill-writer.py:889-968 | Exactly which checks are noted and with what status, though the look at neighbours moves the tape; a FAIL is added if and only if the slice or what follows it is not as reported; passing pins it |
| FillReader.Reader.FsfCheck | scripts/lto6-fill-writer.py:970-987 | The check noted; a FAIL is added if and only if one filemark on from the last slice block is not the seal, where there is one to find |
| FillReader.Reader.HardEndChecks | scripts/lto6-fill-writer.py:998-1011 | The checks noted; a FAIL is added if and only if the walk's first or last block or its count is wrong, or LOCATE fails |
| FillReader.Reader.Neighbours | scripts/lto6-fill-writer.py:989-996 | Which of the four addresses around the start hold the block looked for, and where the tape is left |
| FillReader.Reader.HardEndCountCheck | scripts/lto6-fill-writer.py:1013-1016 | A FAIL is added if and only if the drive's own count is not that of the accepted writes |
| FillReader.Reader.SpaceForward | scripts/lto6-fill-writer.py:848-859 | Succeeds if and only if all records spaced over are data; every command fits the chunk and they sum to the count |
| FillReader.Reader.SpacingChecks | scripts/lto6-fill-writer.py:782-846 | Exactly which checks are noted and with what status; adds a FAIL if and only if the tape is not what the record says as seen without positions; what passing pins |
| FillReader.Reader.PositionChecks | scripts/lto6-fill-writer.py:866-887 | The checks noted; adds a FAIL if and only if the recorded positions disagree with the accepted objects |
| FillReader.Reader.LocateChecks | scripts/lto6-fill-writer.py:755-780 | Falls back exactly when auto cannot LOCATE the slice; else exactly which checks are noted, and a FAIL if and only if the tape is not what the record says; what passing pins |
| FillReader.Reader.RunChecks | scripts/lto6-fill-writer.py:740-780 | The list of checks is the report, nothing more and nothing less; the verdict over both routes is exactly the tape being clean; which route is taken; nothing is left unchecked when no check fails |
| FillReader.NoFailMeaning | scripts/lto6-fill-writer.py:714-717 | A clean verdict is no check with status FAIL |
| FillReader.SealContentIff | scripts/lto6-fill-writer.py:955-961 | The content check passes if and only if the block is the text zero-padded |
| FillReader.FoundAgrees | scripts/lto6-fill-writer.py:934-952 | Reading until enough objects or the end of data finds what was wanted if and only if it is there |
| FillReader.ReportMeans | scripts/lto6-fill-writer.py:740-1016 | The report as a function of tape and record has no FAIL if and only if the tape is as the record says; what its passes pin; when the fill tail passes |
| FillReader.ReadBehindIff | scripts/lto6-fill-writer.py:889-935 | The objects are read behind the slice if and only if no LOCATE found it, or its first block matches, or it is as long as the neighbours reach |
| FillReader.ObjectsMissed | scripts/lto6-fill-writer.py:889-952 | A tape with all the objects reported behind a one-block slice, for which objects-after-slice is FAIL on the LOCATE route and PASS by spacing |
| Placement.WholeRun | src/volume/layout_model.rs:290-314 | The committed count is the longest prefix under the ceiling and the planned one the longest that also keeps within the bound |
| Placement.WholeRunIsDetermined | src/volume/layout_model.rs:290-314 | One pair of counts satisfies the rule |
| Placement.WholeRunHoldsAll | src/volume/layout_model.rs:290-314 | All are planned if and only if the last one's end is under the ceiling, or within the bound where that counts |
| Placement.SpanRun | src/volume/layout_model.rs:545-575 | Units are placed by their ends up to the first tail or refusal, and everything behind it is deferred or refused accordingly |
| Placement.SpanRunHoldsAll | src/volume/layout_model.rs:545-575 | All are on the tape if and only if those before the last keep within the bound and the last is not refused |
| Placement.PlaceClasses | src/volume/layout_model.rs:375-476 | Every unit on the tape ends where its place says, refusals are those of the whole units alone, the errors are those of the refusals, and all are on the tape if and only if a closed form on sums holds; whole units alone are placed as they are split |
| Placement.PlanIsDetermined | src/volume/layout_model.rs:375-476 | The rules admit one plan, errors included |
| Placement.PlacesInBytes | src/volume/layout_model.rs:290-345 | In bytes from the fixed files on, every unit on the tape ends where its place says: under the ceiling, past it within the bound, or past both |
| Placement.LargeTailIsAlone | src/volume/layout_model.rs:438-450 | No whole unit is on a tape whose plan ends with a set of more bytes than the bound leaves a tape |
| Placement.GivenUpIff | src/volume/layout_model.rs:436-450 | The whole units there is room for are given up if and only if the first set to pass ceiling and bound behind them has more bytes than the bound leaves a tape |
| Placement.OpenFit | src/volume/layout_model.rs:427-450 | With owed runs that leave room, everything is on the tape if and only if the closed form holds, second placement of a large tail included |
| Placement.ClosedFit | src/volume/layout_model.rs:408-433 | With owed runs that leave no room, everything is on the tape if and only if the closed form holds |
| Placement.LargeTailIsLast | src/volume/layout_model.rs:438-450 | When all sets are on the tape the tail larger than one tape is the last set |
| Placement.Place | src/volume/layout_model.rs:375-476 | Item by item in the caller's order: all on the tape if and only if the closed form holds, each item's place that of its class's run; the order lists them once each in plan order; an error if and only if a unit is refused |
| Placement.OrderIsRight | src/volume/layout_model.rs:411-469 | The order lists exactly the units on the tape and a refused owed run, by class and then as given |
| Placement.OrderListsRefusedIff | src/volume/layout_model.rs:411-425 | The order lists a refused unit if and only if the drive has no bound and the owed runs pass the ceiling |
| Placement.RefusedRunIsListed | src/volume/layout_model.rs:411-425 | One owed run with no bound and no room is refused, and is the order |
| Placement.OrderIsUnique | src/volume/layout_model.rs:411-469 | One list is that order |
| Placement.OrderWithoutErrors | src/volume/layout_model.rs:411-475 | Without a refusal the order lists just the units on the tape |
| Placement.ErrorsIff | src/volume/layout_model.rs:393-407 | There is an error if and only if a unit is refused |
| Placement.ErrorsAreTrue | src/volume/layout_model.rs:393-407 | Each error's own figures pass the bound or the ceiling it names |
| ForLocation.KeyLeqLaws | src/for_location.rs:238-252 | The order of candidates is total and transitive, and ties only on the whole key |
| ForLocation.KeyMeaning | src/for_location.rs:235-252 | On the candidates' own fields: one goes before another if and only if its class does, or it continues a span, or is more short of a target, or has fewer copies, or its name or its newer version puts it there |
| ForLocation.OrderMeaning | src/for_location.rs:1161-1163 | A list is in order if and only if every pair is so by those fields |
| ForLocation.SortByKey | src/for_location.rs:1161-1163 | A permutation in that order which keeps the order given of equal keys |
| ForLocation.WithKeyMeaning | src/for_location.rs:1161-1163 | The candidates of one key are listed as given, none left out |
| ForLocation.Best | src/for_location.rs:1073-1074 | The version a unit would stage is the least of its options by priority, the first of several, and none only when it has none |
| ForLocation.PreferredMeaning | src/for_location.rs:1073-1074 | A unit's versions are preferred as two of one class are ordered |
| ForLocation.PackTape | src/for_location.rs:1165-1192 | Planned then waiting is riding then to stage; each unit added left all on the tape; the first waiting one would not, unless staged overflow closed the tape; the overflow is the riding sets their placement leaves off the tape |
| ForLocation.OverflowHas | src/for_location.rs:1165-1192 | Each riding set left off the tape is in the overflow, behind those left off before it |
| ForLocation.OverflowOnly | src/for_location.rs:1165-1192 | And nothing else is |
| ForLocation.PlanTape | src/for_location.rs:1150-1192 | Nothing is lost or doubled; riding sets first, then the rest by priority, tight as the packing is, with the same overflow |
| ForLocation.JudgedUnits | src/for_location.rs:168-175 | Every unit of the catalog, by name: the statuses judged are all the schema allows |
| ForLocation.UnitsWithStagedSets | src/for_location.rs:467-488 | Each unit with something staged as often as the catalog has it, no other, by name |
| ForLocation.StagedSetsForLocation | src/for_location.rs:413-464 | The write takes exactly the staged sets judged for here of units whose policy resolves, each as often as it is staged, by stage set id |
| ForLocation.WriteTakesAll | src/for_location.rs:413-488 | Looking only at units with something staged misses no set, whatever their order |
| ForLocation.JudgeUnits | src/for_location.rs:1150-1160 | The riding candidates are those of the sets judged for here; a unit gives its best version to stage, and only when none of its sets rides |
| ForLocation.CandidatesMeaning | src/for_location.rs:1150-1160 | Each set is seen as it was judged, in order |
| ForLocation.PlanAgreesWithWrite | src/for_location.rs:413-464 | The plan rides what the write takes: the same sets, each as often, as the same candidates |
| ForLocation.PlanForLocation | src/for_location.rs:1135-1192 | From the catalog: the sets for here all ride first, each unit planned or waiting is there once as judged, and the tape is filled while everything planned is on it and not past that |
| ForLocation.TapesNeeded | src/for_location.rs:360-365 | Each tape once, in the order of first need |
| ForLocation.ReadSlices | src/for_location.rs:348-370 | A permutation of the commands the planned units need in which each tape's stand together in the plan's order, tapes by first need, so that each cartridge is loaded once; a command is there if and only if a planned unit that is read back needs it |
| ForLocation.JoinedKeepsOrder | src/for_location.rs:366-369 | Grouping keeps each tape's commands, all of them and in order |
| ForLocation.LoadedOnce | src/for_location.rs:366-369 | Between two commands of one tape there is none of another, and tapes follow first need |
| ForLocation.ReadsArePermuted | src/for_location.rs:366-369 | Grouping by the tapes needed loses no command and doubles none |
| ReadBack.GroupHoldings | src/for_location.rs:847-853 | One entry per tape with exactly its slices, in the order tapes are first named |
| ReadBack.BestHolder | src/for_location.rs:856-869 | Of the tapes with the lowest slice left, the first that holds the most of those left; none only when no tape holds it |
| ReadBack.CountIsKept | src/for_location.rs:856-866 | The slices counted for a tape are those left that it holds |
| ReadBack.GreedyReadsMost | src/for_location.rs:856-869 | No tape with the lowest slice left holds more of those left than the command reads, and none listed before it as many |
| ReadBack.CoverSet | src/for_location.rs:854-880 | Every command is the greedy choice, and it stops only when done or when no tape holds the lowest slice left |
| ReadBack.GreedyRunDivides | src/for_location.rs:854-880 | Commands and remainder divide the set's slices, each command's slices are on its tape, no tape is named twice |
| ReadBack.FinishesIffHeld | src/for_location.rs:854-884 | The greedy cover finishes if and only if every slice is held by some tape |
| ReadBack.ReadsWholeWhenDone | src/for_location.rs:823-885 | A finished cover reads every slice once, from a tape that holds it, one command a tape |
| ReadBack.ReadBackVersion | src/for_location.rs:823-885 | Succeeds if and only if some non-empty set is held whole, and reads the lowest such set whole, with its bytes and under the version asked for |
| SliceCap.OnTapeIsTight | src/config.rs:564-568 | Whole blocks of 524288, at least the ciphertext and less than a block over |
| SliceCap.TagPerChunk | src/config.rs:555-568 | From 4096 bytes of header on, each byte adds one, and 16 more where it begins a chunk of 65536 |
| SliceCap.OnTapeMonotone | src/config.rs:564-568 | A larger slice takes no less tape |
| SliceCap.NoOverflow | src/config.rs:564-568 | No step leaves 64 bits for any slice size that fits an i64 |
| SliceCap.MaxSliceWithin | src/config.rs:572-586 | None if and only if one byte does not fit; else the size that fits while one more byte does not |
| SliceCap.LargestIsUnique | src/config.rs:572-586 | There is one such size |
| SliceCap.SmallestRoom | src/config.rs:1267-1280 | The least measured room, None if and only if no drive has one |
| SliceCap.TightestDrive | src/config.rs:1267-1280 | The drive the least room belongs to, the first of several |
| SliceCap.AcceptedFitsEveryDrive | src/config.rs:1293-1299 | A size is accepted if and only if it seals within half the room of every measured drive |
| SliceCap.AcceptedIffAtMostMaximum | src/config.rs:1293-1323 | A positive size is accepted if and only if it is at most the maximum the refusal advises |
| SliceCap.NoMaximumIff | src/config.rs:572-575 | No maximum if and only if the seal and one block do not fit |
| SliceCap.SealAloneFitsYetNoMaximum | src/config.rs:1302-1307 | A half room the seal fits in and that has no maximum |
| Drives.MatchingIsAnEquivalence | src/config.rs:2472-2483 | For any canonicalization matching is reflexive, symmetric and transitive |
| Drives.MatchingIff | src/config.rs:2472-2483 | Two paths match if and only if they are one, or the filesystem has one form for both |
| Drives.AmbiguityProblems | src/config.rs:1971-1997 | Reports exactly the pairs that share a name or a drive |
| Drives.OnlyOneMatches | src/config.rs:2536-2560 | In an unambiguous list a requested device matches at most one entry |
| Drives.Resolve | src/config.rs:2512-2579 | The drive used is the only match for the device asked for, or the only drive, well paired; each refusal has its cause |
| Drives.AmbiguityIgnoresOrder | src/config.rs:1971-1997 | Every reordering of an unambiguous list is unambiguous |
| Drives.ResolutionIgnoresOrder | src/config.rs:2512-2579 | Every reordering resolves to the same drive or the same refusal |
| KeyPath.ParseKey | src/config_edit.rs:255-306 | The character walk accepts and refuses exactly as the grammar does, with the same error |
| KeyPath.ValueOfDecimal | src/config_edit.rs:236-244 | A printed index reads back as itself |
| KeyPath.SelectorOfDigits | src/config_edit.rs:293-296 | Digits a usize holds are a position, leading zeros or not; other digits are a name as written |
| KeyPath.KeyChars | src/config_edit.rs:268-273 | The characters of a key name, by code point |
| KeyPath.ParseOfDotted | src/config_edit.rs:236-306 | Printing then parsing a well-formed list returns it |
| KeyPath.ParsedIsWellFormed | src/config_edit.rs:255-306 | Every accepted key is a well-formed list |
| KeyPath.RoundTripIff | src/config_edit.rs:236-306 | A list survives printing and parsing if and only if the parser could have made it |
| KeyPath.ParseIsStable | src/config_edit.rs:236-306 | Every accepted key keeps its meaning when printed and read again, dots in brackets, leading zeros and oversized digit strings included |
| ValueSearch.SortedMasksBelow | src/config_edit.rs:849-851 | Every mask once, by ones and then value |
| ValueSearch.PickOfMaskOf | src/config_edit.rs:855-865 | Every choice is made by a mask |
| ValueSearch.MaskOfPickOf | src/config_edit.rs:855-865 | Different masks make different choices, with as many fallbacks as ones |
| ValueSearch.AmbiguousCounted | src/config_edit.rs:846-867 | The slots counted are those with two readings |
| ValueSearch.FallbacksCounted | src/config_edit.rs:846-867 | The fallbacks of a choice are the slots read the second way |
| ValueSearch.MakePick | src/config_edit.rs:857-864 | Bit b of the mask, below 32, decides the b-th ambiguous slot and no other |
| ValueSearch.Combos | src/config_edit.rs:846-867 | Up to ten ambiguous slots every choice exactly once in non-decreasing fallbacks; past ten two, the second all strings if and only if at most 32 are ambiguous |
| ValueSearch.AllStringIff | src/config_edit.rs:843-867 | The full mask reads every ambiguous slot as a string if and only if there are at most 32 |
| ValueSearch.ThirtyThreeSlots | src/config_edit.rs:843-867 | With 33 ambiguous slots the second reading keeps the last literal |
| ValueSearch.RunsOnlyRepair | src/config_edit.rs:871-896 | Over any run of accepted edits no problem appears that the first file did not have, and a file that loads goes on loading |
| ValueSearch.RepairIsAccepted | src/config_edit.rs:871-896 | An edit that only takes problems from a file that does not load is let through, whether or not it then loads |
| ValueSearch.BrokenIsRefused | src/config_edit.rs:871-896 | A text that does not load is let through over no file that loads, and not without a breakdown on both sides |
| ValueSearch.LoadingIsAccepted | src/config_edit.rs:871-896 | A text that loads is let through if and only if it adds no cap problem |
| ValueSearch.Search | src/config_edit.rs:954-993 | What is returned may be written; if applying never errors and at most ten slots are ambiguous it has the fewest fallbacks, and a refusal means no reading may be written |
| ValueSearch.Explained | src/config_edit.rs:976-984 | The first reading that is not a mere type error, else the first |
| EditDistance.DistanceIsReached | src/error.rs:828-843 | Some script of insertions, deletions and substitutions of that cost turns a into b |
| EditDistance.DistanceIsLeast | src/error.rs:828-843 | No script is cheaper |
| EditDistance.Symmetric | src/error.rs:828-843 | The distance is symmetric |
| EditDistance.ZeroIffEqual | src/error.rs:828-843 | Zero if and only if equal |
| EditDistance.Triangle | src/error.rs:828-843 | The triangle inequality |
| EditDistance.LengthBound | src/error.rs:828-843 | At least the difference in length and at most the sum |
| EditDistance.Compute | src/error.rs:830-843 | The rolling two-row table computes the distance for all strings |
| NearestLabels.NearestTo | src/error.rs:799-827 | Sorted, exactly the labels other than the typed one at the least distance within the limit, nothing when more than three tie |
| NearestLabels.OfferMeaning | src/error.rs:799-827 | Up to three nearest labels are all offered, and of more none is |
| NearestLabels.OfferedIsNear | src/error.rs:795-827 | What is offered is at most two edits and a third of what was typed away, and nothing is nearer |
| NearestLabels.OfferIgnoresOrder | src/error.rs:799-827 | The offer is the same for every ordering of the catalog |
| CivilDate.YearOfEraFound | build.rs:151-153 | The division formula finds the year of the era a day falls in, century and 400-year ends included |
| CivilDate.MonthAndDay | build.rs:154-157 | Every day of a March year gives a month and day of the calendar |
| CivilDate.RoundTrip | build.rs:147-158 | Every integer day gives a valid Gregorian date whose day number is that day |
| CivilDate.DateOfDayNumber | build.rs:147-158 | Every valid date is the date of its day number |
| CivilDate.ConsecutiveDays | build.rs:147-158 | The day after is the next date, across months, leap years, centuries and eras |
| CivilDate.Monotone | build.rs:147-158 | An earlier date has a smaller day number |
| CivilDate.BuildDateCoversTheDay | build.rs:130-142 | Before and after 1970 alike a second belongs to the day whose midnight it follows |
| Filler.Padded | examples/short_seal_filler.rs:175-177 | The fewest whole blocks that hold the bytes |
| Filler.BeforeAndAfter | examples/short_seal_filler.rs:351-359 | The other units' bytes split by name, none counted twice or left out |
| Filler.CopiesForEnd | examples/short_seal_filler.rs:377-387 | The most full slices that end at or before the end asked for; each refusal has its cause |
| Filler.SlicesAskedFor | examples/short_seal_filler.rs:367-376 | `--slices n` is refused if and only if the set has more; else the set ends with slices 1 to n, each once |
| Filler.SliceTable.Fill | examples/short_seal_filler.rs:449-478 | No statement ever holds a slice number twice; the rows end as the later slices moved up and the copies added |
| Filler.NumbersFilled | examples/short_seal_filler.rs:449-478 | Rows 1 to r end as rows 1 to the total, each number once |
| Filler.FilledBytes | examples/short_seal_filler.rs:390-392 | The rows the table ends with take the bytes the plan was sized by |
| Filler.PlanEndIsTight | examples/short_seal_filler.rs:377-392 | The filled plan ends at or before the end asked for, and one slice more would pass it |

## Left out

- Real `st` ioctls, `sg` snapshots, logs, timings, JSON, the summary and the shift diagnosis: I/O and text.
- The writer's close-time filemark, signal handlers and exit code 6: the stop flag is an arbitrary function read where the code reads it, and exceptions are not modelled.
- The seal's text: any function of fill blocks, slice blocks and stop whose value starts with the marker, has no NUL and fits a block. Bytes are modelled as characters.
- Tape.FakeTape.Seek: refuses an address below zero, which the in-memory drive of the source does not rule out; only the look at neighbours can ask for one, and no check depends on what it reads there.
- FillRun.Scenario: starts from a blank tape at BOT and from a keystream none of whose blocks begins with the seal marker, as the source assumes.
- Placement.Place: the last tape's share of a span is not modelled, and sums are unbounded where the source saturates at 64 bits.
- ReadBack.ReadBackVersion: a set's slices, holders and padded bytes are inputs, as the source's queries give them, slices in ascending order.
- ForLocation.PlanForLocation: judging a set, resolving policy, the versions a unit could stage and the queries are arbitrary functions and input sequences; spans that wait, skipped units, warnings and the reasons given for sets left out are not modelled.
- CivilDate.BuildDateCoversTheDay: the text of the date, `SOURCE_DATE_EPOCH` and the 64-bit range of seconds are not modelled.
- Filler.SliceTable.Fill: rows are known by their place instead of an id; the transaction, the shared file and 64-bit arithmetic are not modelled.
- ValueSearch.Search: `toml_edit`, the lenient loader and the wording of a refusal are arbitrary functions of the values.
- NearestLabels.NearestTo: lower-casing is an arbitrary function.
- Floating-point ceilings, range and closed-set validators, exit-code tables, the resumable tail, `naming.rs`, `output.rs`: they would only add easy members.
- The catalog, policy, coverage and restore code, and the report and documentation scripts.
