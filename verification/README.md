# ucrashreport-server: verified model

ucrashreport-server collects kernel crash reports from devices. A report is posted with a signed upload,
queued, turned into annotated and scrubbed text by decoder workers, and put into a crash group by a key
computed from that text; the raw upload is deleted afterwards. This project models that life in Dafny and
proves what the code keeps in every run, and where it does not keep what one would expect, exactly when.

| file | what it models |
|---|---|
| `Text.dfy` | Rust's string operations as far as they are used, and the split into lines and words |
| `Symbols.dfy`, `Exceptions.dfy`, `Noise.dfy`, `Printk.dfy` | `normalize_symbol`, `normalize_exception` and which words count for it, `strip_printk_prefix` |
| `Signature.dfy`, `Selection.dfy` | `compute`: the grouping key, title and modules of a crash, and which frames they come from |
| `Oops.dfy`, `Sections.dfy`, `Traces.dfy` | `parse_oops` as a line-driven state machine, which section of a log it reports, and what it reports of a written-out log |
| `Logs.dfy` | whole logs of the same crash under other prefixes, offsets, addresses and noise, and with lines more or less |
| `Annotate.dfy`, `Located.dfy`, `ExceptionTail.dfy`, `Transparency.dfy`, `ModuleNames.dfy` | `annotate`, what it asks the resolver, and what symbolising a text does to its key and to its modules |
| `Groups.dfy` | the crash-group table as a fold of upserts |
| `Lifecycle*.dfy` | posts, any number of workers and GC tasks as atomic steps with faults and deaths; what every run keeps |
| `Decoder.dfy` | the decoder's code over the tables and directories, and its drain loop |
| `Ingest.dfy`, `Origins.dfy` | `post_report`, retries, lost jobs, and whose payload a report has under every interleaving |
| `Nonces.dfy` | the login-nonce map |
| `Scrub.dfy`, `ScrubPass.dfy`, `Pipeline.dfy` | `scrub`, with MAC addresses in full, and symbolising, scrubbing and parsing in a row |
| `BuildIds.dfy` | the symbol pool, its build-id index, collection, and `resolve` |
| `Slugs.dfy` | publishing and the lookup by slug |

How it is built. Code that changes things step by step is a method over the same state (the class `Store` for
the decoder's tables and directories, `Server`, `NonceMap`, `SymbolPool`, `Reports`, and methods with loops for
the text algorithms), proved equal to a specification function; what the program promises is then proved about
that function, or about runs of the step functions. So that function and code cannot be wrong together, there
are also statements that use neither and tell input and result by their characters, fields and literal texts
(`Noise`, `Selection`, `Traces`, `Located`, `LifecycleUpserts`, and single lemmas elsewhere). In
`Lifecycle.dfy` each SQL statement and each file operation is one step that may fail, a file write may leave a
damaged file, and every actor may die between two steps; `Decoder.ProcessIsRun`, `Decoder.GcIsRun` and `Ingest.PostIsAfter` tie the sequential code to these
steps. Random ids, clocks, answers of the database and the file system, symbol lookups, signature checks and the
cuts made by the two IP patterns are parameters without any restriction unless a contract names one.

Where the code and its documentation differ, the model follows the code: section 6 of `docs/protocol.md` takes
the first matching exception line and cuts a suffix by a pattern with digits, the code takes the line that opens
the last section and cuts everything behind the suffix; the comment at `claim_job` says oldest, the query orders
by the random job id; the comment at `set_visibility` says stable slug, which overtaken calls break
(`Slugs.SlugsStableIff`, `Slugs.OverlapLosesSlug`).

## Model

| member | source | states |
|---|---|---|
| Symbols.NormalizeSymbol | crates/ucrs-common/src/signature.rs:59-76 | trimming, the offset cut and the five suffix truncations together give the trimmed name up to the earliest of six patterns |
| Symbols.CutsAreOneCut | crates/ucrs-common/src/signature.rs:62-73 | cutting pattern after pattern, each inside what is left, is one cut at the earliest occurrence of any of them, because none can start inside another |
| Symbols.CutOrderIrrelevant | crates/ucrs-common/src/signature.rs:69-73 | any order and repetition of the same patterns cuts alike |
| Symbols.NameCut | crates/ucrs-common/src/signature.rs:59-76 | a name is cut at the first of the offset mark and the five suffixes, written out, whatever blanks stand before it and whatever follows |
| Symbols.NameStays | crates/ucrs-common/src/signature.rs:59-76 | a name without any of the six is only trimmed |
| Symbols.CutBeforeOffset | crates/ucrs-common/src/signature.rs:62-73 | only the text before an offset decides the cut |
| Symbols.OffsetIgnored | crates/ucrs-common/src/signature.rs:62-65 | whatever follows an offset mark, such as another offset and size, leaves the normal form equal |
| Symbols.NormalTwice | crates/ucrs-common/src/signature.rs:59-76 | normalising twice is normalising once and trimming the end |
| Symbols.NormalIdempotentIff | crates/ucrs-common/src/signature.rs:59-76 | a second pass changes nothing exactly if the character before the earliest pattern of the trimmed symbol is not a space |
| Symbols.SpaceBeforeSuffix | crates/ucrs-common/src/signature.rs:59-76 | `f .cold` is a symbol for which it does |
| Exceptions.NormalizeException | crates/ucrs-common/src/signature.rs:80-111 | the peekable token loop gives the kept tokens of the line, glued by the code's own spacing rule |
| Noise.Replaced | crates/ucrs-common/src/signature.rs:84-104 | a word whose core is an address or counter, told by its characters and with any brackets and commas around it, may stand for any other, even where a label takes it along |
| Noise.Removed | crates/ucrs-common/src/signature.rs:84-104 | without such a word and the blanks behind it the result is the same, unless a label stands before it |
| Noise.LabelRemoved | crates/ucrs-common/src/signature.rs:91-98 | so it is without one of the words CPU:, PID:, Comm: and Tainted: and the word behind it |
| Noise.WordKept | crates/ucrs-common/src/signature.rs:84-108 | every other word is kept, behind one blank unless nothing was kept before |
| Exceptions.SecondPass | crates/ucrs-common/src/signature.rs:80-111 | a second pass drops exactly the empty pieces that tokens of brackets and commas leave |
| Exceptions.ThirdPass | crates/ucrs-common/src/signature.rs:80-111 | on every line a third pass changes nothing after the second |
| Exceptions.IdempotentIff | crates/ucrs-common/src/signature.rs:80-111 | one pass is already stable exactly if no empty piece follows one with content |
| Exceptions.IdempotentWithoutBracketTokens | crates/ucrs-common/src/signature.rs:84-85 | so it is stable when no token consists of brackets and commas only |
| Exceptions.BracketTokenExample | crates/ucrs-common/src/signature.rs:84-107 | `Oops []` shows that one pass alone is not stable |
| Printk.PrefixStripped | crates/ucrs-common/src/signature.rs:165-191 | any prefix of the documented shapes before any message is removed and the trimmed message is left |
| Printk.StripIs | crates/ucrs-common/src/signature.rs:165-191 | on every line exactly the leading blanks, a level with the blanks behind it if one is there, and a timestamp if one is there are removed, told by their characters |
| Printk.StripTail | crates/ucrs-common/src/signature.rs:165-191 | on a line with a plus sign the stripped front holds none, and text appended to the line is appended to the stripped line |
| Printk.StripCarriageReturn | crates/ucrs-common/src/signature.rs:205-206 | a carriage return at the line end is invisible after stripping |
| Signature.Compute | crates/ucrs-common/src/signature.rs:114-160 | the single pass gives: first five names of the usable frames after leading machinery, first occurrences of all usable frames' modules, and the key text |
| Selection.KeyOfFrames | crates/ucrs-common/src/signature.rs:114-160 | frame by frame: the key has the names of the first five frames that count, from the first on that is not one of the handling functions written out; the title is the first of them or the exception; the modules are those of the frames that count, each once, in order of appearance |
| Signature.QuestionableIgnored | crates/ucrs-common/src/signature.rs:121-124 | a questionable frame anywhere changes neither key, title nor modules |
| Signature.MachineryIgnored | crates/ucrs-common/src/signature.rs:137-140 | machinery of any length in front changes neither key nor title |
| Signature.OffsetsIgnored | crates/ucrs-common/src/signature.rs:126-129 | other offsets, sizes and modules of the frames leave key and title equal |
| Signature.BeyondFifthIgnored | crates/ucrs-common/src/signature.rs:142-144 | with five frames selected, nothing appended to the trace matters |
| Signature.KindRecovered | crates/ucrs-common/src/signature.rs:147-148 | equal keys of bar-free kinds have equal kinds |
| Signature.JoinInjective | crates/ucrs-common/src/signature.rs:147 | joining bar-free non-empty names loses nothing, the empty list included |
| Signature.KeyInjective | crates/ucrs-common/src/signature.rs:147-148 | keys are equal exactly if kind, exception and frame list are, for parts without a bar |
| Signature.BarConfuses | crates/ucrs-common/src/signature.rs:147 | behind any exception line, a bar and a name give the key of the trace with that name as one more frame in front |
| Oops.ParseOops | crates/ucrs-common/src/signature.rs:200-275 | the line loop with its exception slot, frame list and trace flag computes the fold of the step function over the lines |
| Traces.LogReported | crates/ucrs-common/src/signature.rs:200-275 | a log, written out: lines, one with a marker, lines, a line that begins with one of the two headers, trace lines with question marks, offsets, modules and marks, and lines behind their end, under any valid prefixes, gives exactly this exception line and these frames |
| Traces.NoHeaderNoFrames | crates/ucrs-common/src/signature.rs:230-233 | without a line that begins with either header there are no frames |
| Traces.ReportedIff | crates/ucrs-common/src/signature.rs:208-228 | a crash is reported exactly if a stripped line has one of the seven markers, written out, in it |
| Traces.Unclassified | crates/ucrs-decoder/src/decode.rs:168-174 | a text without a marker has the key of its kind and the word unclassified, that word as title, and no modules |
| Oops.FindMarker | crates/ucrs-common/src/signature.rs:208-228 | the marker loop finds a marker exactly if the line contains one |
| Oops.ReadFrame | crates/ucrs-common/src/signature.rs:235-271 | peeling short marks and splitting off the module gives the frame of a trace line, or none where the trace ends |
| Traces.RowRead | crates/ucrs-common/src/signature.rs:241-270 | a trace line of any number of question marks, symbol and offset, a module in brackets or none, and any number of (P) and (K) marks gives this frame |
| Sections.ReportsLastSection | crates/ucrs-common/src/signature.rs:197-275 | the result is the last crash section: all frames on or after the last marker line, with the exception line at or before it and no frame in between; nothing is reported exactly without a marker line |
| Sections.SectionUnique | crates/ucrs-common/src/signature.rs:217-226 | that section is determined by the lines alone |
| Sections.LastSectionIff | crates/ucrs-common/src/signature.rs:197-275 | for all texts read one after the other, the later one with its own section: together they give the later one's result exactly if its last marker line is not taken as a frame by a trace the earlier text left open, and the line that becomes the exception, which is the earlier text's when that has no frames yet and none come before the last marker line, and else the first marker line of the section not so taken, reads like the later one's own |
| Sections.LastSectionWins | crates/ucrs-common/src/signature.rs:197-233 | in particular after frames of an earlier section, when the first marker line of the appended lines is not taken as a frame |
| Sections.EarlierTextShows | crates/ucrs-common/src/signature.rs:217-238 | where it does not: a marker line that an open trace takes as a frame, and a marker line behind an exception line without frames, whatever text came before |
| Sections.ReadingsConcat | crates/ucrs-common/src/signature.rs:204-206 | texts that end with a newline are read one after the other, so the laws about lines are laws about appended texts |
| Sections.PrefixIndependent | crates/ucrs-common/src/signature.rs:165-206 | the same messages under any two choices of log prefixes, line by line, parse alike |
| Annotate.Annotate | crates/ucrs-decoder/src/symbols.rs:414-439 | the loop appends to each line the location of its first symbol-with-offset match, if the resolver has one, for any resolver |
| Located.FrameLocated | crates/ucrs-decoder/src/symbols.rs:414-439 | in every text, a line whose first piece is a symbol, "+0x", the digits of a number, "/0x" and digits gets the resolver's answer for this symbol, this number (0 from 2^64 on) and the name in brackets behind blanks, if there is one |
| Located.OtherLineStays | crates/ucrs-decoder/src/symbols.rs:424-436 | a line without such a piece stays as it is |
| Located.CutExists | crates/ucrs-decoder/src/symbols.rs:425 | every line with such a piece has its first one, as the two statements above ask |
| ExceptionTail.LocationShows | crates/ucrs-common/src/signature.rs:80-111 | a location behind an exception line always shows in its normal form |
| Transparency.SolidTail | crates/ucrs-decoder/src/symbols.rs:425-433 | an appended location adds no marker or end-of-trace text that it does not contain itself |
| Transparency.PeelKeeps | crates/ucrs-common/src/signature.rs:246-251 | peeling short marks can never remove an offset |
| Transparency.FrameTail | crates/ucrs-common/src/signature.rs:241-270 | an annotated trace line carries a frame exactly if the plain one does, with the same name and standing |
| Transparency.SameSelection | crates/ucrs-common/src/signature.rs:200-275 | logs whose lines read alike have the same section reported, with frames of the same names |
| Transparency.SameShapeSameKey | crates/ucrs-common/src/signature.rs:114-275 | logs whose lines read alike, with marker lines that normalise alike, get the same key and title |
| Logs.OffsetAlike | crates/ucrs-common/src/signature.rs:230-270 | a line reads the same whatever stands behind an offset mark, if that brings no marker and no end of trace |
| Logs.NoFrame | crates/ucrs-common/src/signature.rs:253-264 | a line without an offset mark carries no frame |
| Logs.SameCrashSameKey | crates/ucrs-common/src/signature.rs:80-275 | two texts that differ line by line in valid prefixes, blanks, offsets, sizes and modules behind symbols, addresses on fault lines and unread text get the same key and title |
| Logs.UnreadLineIgnored | crates/ucrs-common/src/signature.rs:114-275 | inserting or removing a line that the parser passes over, or a questionable frame behind other frames or behind the last marker line, leaves the whole signature of the text |
| Pipeline.LinesOfPass | crates/ucrs-decoder/src/decode.rs:143-156 | scrubbing a text scrubs its lines one by one |
| Pipeline.SymbolizationTransparent | crates/ucrs-decoder/src/symbols.rs:414-439 | parsing the text that `annotate` returns: for every text and every resolver with neutral locations, section, frames and title stay, and the key stays exactly if the reported exception line got no location |
| Pipeline.PipelineTransparent | crates/ucrs-decoder/src/decode.rs:143-177 | the same with `scrub` between symbolising and parsing, for all cuts of the IP patterns that stay within blank-free pieces and end at word boundaries |
| ModuleNames.ModuleKeptIff | crates/ucrs-common/src/signature.rs:246-257 | a frame with a location behind it keeps its module exactly if its text has no bracket or the location is under three bytes and peeled off as a mark |
| ModuleNames.ModulesKeptIff | crates/ucrs-decoder/src/symbols.rs:414-439 | symbolising a text keeps the modules of the reported frames exactly if no located frame line of the reported section has a bracket |
| ModuleNames.LocationJoinsModule | crates/ucrs-common/src/signature.rs:246-257 | otherwise the location becomes part of the module name |
| ModuleNames.ModulesChange | crates/ucrs-common/src/signature.rs:131-135 | a text and a resolver for which the module list of the signature changes |
| Groups.ReplayIsGroupBy | crates/ucrs-decoder/src/decode.rs:183-202 | the table built by upserts is the group-by of the history: one group per signature, with id, kind, title, joined modules, version and first-seen time of its first entry and the last-seen time of its last |
| Groups.GroupOf | crates/ucrs-decoder/src/decode.rs:183-202 | the first and last entries that made the group of a given one |
| Groups.LastSeenIsLatestIff | crates/ucrs-decoder/src/decode.rs:183-202 | a group's last-seen time is the latest of its entries exactly if no earlier entry of its signature has a later time than the last |
| Groups.FirstSeenIsEarliestIff | crates/ucrs-decoder/src/decode.rs:183-202 | its first-seen time is the earliest exactly if no later entry has an earlier time than the first |
| Groups.TimesEnclose | crates/ucrs-decoder/src/decode.rs:183-202 | when the entries of one signature come in the order of their times, the group's times enclose them |
| Groups.LastSeenIsNotTheLatest | crates/ucrs-decoder/src/decode.rs:182-202 | with workers that read and write in different orders the last-seen time is not the latest |
| Groups.GroupsHaveOneKind | crates/ucrs-decoder/src/decode.rs:183-202 | no group mixes kinds |
| Lifecycle.Next | crates/ucrs-decoder/src/decode.rs:62-69 | the pending job with the least id exists whenever a job is pending |
| LifecycleJobs.StepKeepsJobs | crates/ucrs-decoder/src/decode.rs:62-113 | every step of every actor keeps the job invariant |
| LifecycleJobs.JobsSafe | crates/ucrs-decoder/src/decode.rs:62-113 | after any run pending jobs have at most two attempts, running and done ones one to three, failed ones three; no report has two jobs and no two workers hold one job |
| LifecycleJobs.ThreeAttempts | crates/ucrs-decoder/src/decode.rs:62-95 | in numbers: two attempts at most behind a pending job, three behind any, exactly three behind one given up |
| LifecycleFailed.UnmarkedIff | crates/ucrs-decoder/src/decode.rs:91-110 | after any run the report of a given-up job is failed, or its worker is about to mark it so; it is neither exactly if in that run the worker died before this mark or its UPDATE failed |
| LifecycleRaw.StepKeepsRaw | crates/ucrs-decoder/src/decode.rs:35-217 | every step keeps the invariant about raw files and the report states that excuse missing ones |
| LifecycleRaw.RawPayloadsSafe | crates/ucrs-decoder/src/decode.rs:35-217 | after any run a worker about to read finds the raw file, every pending job has one, and a report without one is decoded or failed |
| LifecycleGroups.GroupsInvariant | crates/ucrs-decoder/src/decode.rs:179-214 | after any run reports, workers and the group table agree |
| LifecycleGroups.DecodedReportsGrouped | crates/ucrs-decoder/src/decode.rs:179-214 | after any run every decoded report has a stored text and exactly one group, of its own kind, in a table that is the group-by of all upserts |
| LifecycleUpserts.GroupTold | crates/ucrs-decoder/src/decode.rs:168-202 | after any run every group has the id, kind, version and time of the worker that upserted its key first, the title and joined modules of that worker's text, and the time of the worker that upserted it last |
| LifecycleUpserts.HasGroupIff | crates/ucrs-decoder/src/decode.rs:183-202 | a key has a group exactly if it was upserted |
| LifecycleUpserts.UpsertsItsReport | crates/ucrs-decoder/src/decode.rs:115-202 | a worker that upserts has kind and version of its report's row, and its text is the stored one |
| LifecycleDone.InItsGroupIff | crates/ucrs-decoder/src/decode.rs:79-217 | after any run, whatever became of its job, a report with a group is in the group of the key of its stored text exactly if no text was written since the row was last marked as decoded, or the last one written since has the key of that group |
| LifecycleDone.DoneIsInItsGroup | crates/ucrs-decoder/src/decode.rs:79-217 | the report of a finished job has had no text written since, so it is in the group of the key of its stored text |
| LifecycleDone.SameGroupIffSameKey | docs/protocol.md:178-179 | two reports with groups and no later text are in the same group exactly if the keys of their stored texts are equal |
| Decoder.DecodedIsNotDone | crates/ucrs-decoder/src/decode.rs:177-214 | how a decoded report leaves its group: after a failed raw removal the retry stores a text of another key before its group |
| LifecycleClock.LastSeenIsLatestIff | crates/ucrs-decoder/src/decode.rs:182-202 | with one clock that never runs back, a group's last-seen time is the latest exactly if no upsert read another time from the clock after the last one had, and wrote before it |
| LifecycleClock.FirstSeenIsEarliestIff | crates/ucrs-decoder/src/decode.rs:182-202 | and its first-seen time the earliest exactly if its first upsert overtook none |
| LifecycleDrain.StepSpends | crates/ucrs-decoder/src/decode.rs:62-113 | without enqueuing no step adds attempts to any job, and a claim uses one up |
| LifecycleDrain.ClaimsBounded | crates/ucrs-decoder/src/decode.rs:62-113 | from any reachable state, without enqueuing, all workers together claim at most as often as pending and running jobs have attempts left |
| Decoder.Store.ClaimJob | crates/ucrs-decoder/src/decode.rs:62-77 | takes the pending job with the least id and changes that row only, or finds none pending and changes nothing |
| Decoder.Store.StoreText | crates/ucrs-decoder/src/decode.rs:115-180 | load, read and write are the worker's first steps; success leaves the decoded text and changes nothing else |
| Decoder.Store.StoreGroup | crates/ucrs-decoder/src/decode.rs:182-217 | upsert, mark and remove are its remaining steps; a failure leaves all raw files |
| Decoder.Store.DecodeReport | crates/ucrs-decoder/src/decode.rs:115-217 | the code is the worker's steps in order; the raw file goes only after text, group and row are stored |
| Decoder.Store.ProcessJob | crates/ucrs-decoder/src/decode.rs:79-113 | the code is all steps of a worker, and a job goes back to pending only with attempts left |
| Decoder.EndSays | crates/ucrs-decoder/src/decode.rs:79-113 | a job ends done, or pending again, or given up at the third failure, and only then its report becomes failed |
| Decoder.ProcessIsRun | crates/ucrs-decoder/src/decode.rs:79-217 | what it does is a run of the interleaved system |
| Decoder.Store.Drain | crates/ucrs-decoder/src/main.rs:64-79 | the one-shot loop ends with nothing pending, after at most the sum of the attempts left of the pending jobs |
| Decoder.Store.GcFailedRaw | crates/ucrs-decoder/src/decode.rs:35-59 | the loop removes and stamps exactly the selected rows for which the operations succeed |
| Decoder.GcIsRun | crates/ucrs-decoder/src/decode.rs:35-59 | what it does is a run of a GC task of the interleaved system |
| Ingest.PostIsAfter | crates/ucrs-server/src/api.rs:191-246 | the four steps in a row write file, row and job of the settled id and nothing else, up to the first failure |
| Ingest.Server.Store | crates/ucrs-server/src/api.rs:210-244 | file, row and job are written in this order; true exactly if all three are |
| Ingest.Server.PostReport | crates/ucrs-server/src/api.rs:191-247 | the code is these four steps, whatever the rest of the system does; a first upload is stored under its own id and answered with it, a repeated one changes nothing and is answered alike, and for an id of another's the answer is another id and its row and file stay |
| Ingest.FirstPost | crates/ucrs-server/src/api.rs:192-246 | where every write succeeds, an id not yet on record gets its row, payload and pending job, and nothing else changes |
| Ingest.PostTwice | crates/ucrs-server/src/api.rs:192-208 | uploads are idempotent: after the first and any run, the report is on record as it was sent, and another upload of it by its device changes nothing |
| Ingest.OthersIdUntouched | crates/ucrs-server/src/api.rs:197-208 | a post of an id that belongs to another device or to none leaves row, file and jobs of that report alone |
| Ingest.RunKeepsOrigin | crates/ucrs-server/src/api.rs:218-236 | no run changes who sent a report, what it is or when it came |
| Ingest.RetryChangesNothing | crates/ucrs-server/src/api.rs:191-208 | at any later point of any run, a re-upload by the owning device changes nothing at all |
| Ingest.StrandedIff | crates/ucrs-server/src/api.rs:197-244 | after any run a report on record has no job, and no post about to add one, exactly if in that run a post of it ended between row and job, by an error or a death; no retry mends it |
| Origins.PayloadIsTheCreators | crates/ucrs-server/src/api.rs:191-246 | over all interleavings with faults, a report's raw file is the payload of the upload that created its row, as long as each check settles on an id that is neither on record nor held by a post before its row |
| Origins.RivalsMixUp | crates/ucrs-server/src/api.rs:197-236 | from every state in which a check settles on such an id, for another payload, some continuation leaves one upload's row with the other's payload |
| Origins.AnsweredIsStored | crates/ucrs-server/src/api.rs:238-247 | whatever came between its steps, a post that ends with an answer leaves its own report on record with its payload stored and queued |
| Nonces.NonceMap.DeviceChallenge | crates/ucrs-server/src/api.rs:267-292 | the map and the answer after a challenge, the cleanup included |
| Nonces.NonceMap.DeviceLogin | crates/ucrs-server/src/api.rs:300-336 | the map and the answer after a login; the nonce is gone whatever becomes of the attempt |
| Nonces.CleanupUnobservable | crates/ucrs-server/src/api.rs:284-311 | every request of every run is answered as if expired nonces were never dropped |
| Nonces.LoginIff | crates/ucrs-server/src/api.rs:304-331 | a login gets a token exactly if it signs the nonce of a challenge for its key under 60 s old with no request on the key in between, and device lookup and token insert succeed |
| Nonces.TokenIff | crates/ucrs-server/src/api.rs:267-336 | told by the answers alone: a token is given exactly for a valid key on record that signs the nonce which the last challenge for it was answered with, within a minute and as the first login since |
| Nonces.ChallengesServeOnce | crates/ucrs-server/src/api.rs:304-311 | no challenge serves two logins |
| Scrub.OnlyNicMasked | crates/ucrs-decoder/src/scrub.rs:12-39 | the MAC pass keeps every position, and only turns hex digits in the second half of a match into x |
| Scrub.MacIs | crates/ucrs-decoder/src/scrub.rs:12-19 | a match is six pairs of hex digits with colons between them and no word character on either side |
| Scrub.NoMatchMissed | crates/ucrs-decoder/src/scrub.rs:12-39 | every match in the input has a character masked |
| Scrub.NicMasked | crates/ucrs-decoder/src/scrub.rs:12-39 | a match that overlaps no earlier one keeps its vendor half and loses the other |
| Scrub.NoMacAfterPass | crates/ucrs-decoder/src/scrub.rs:12-39 | no match of the MAC pattern is left, for any word-character class with hex digits and x in it and the colon not |
| Scrub.MaskingMakesNoMac | crates/ucrs-decoder/src/scrub.rs:41-61 | replacing any pieces by a text bordered by x makes no match |
| Scrub.NoMacSurvives | crates/ucrs-decoder/src/scrub.rs:38-61 | no MAC address is left in what `scrub` returns, for every text |
| Scrub.AddressMasked | crates/ucrs-decoder/src/scrub.rs:41-61 | an address that one of the IP patterns matches is replaced by x.x.x.x or x:x::x, and the text around it stays |
| BuildIds.SymbolPool.IndexBuildIds | crates/ucrs-decoder/src/symbols.rs:189-211 | the loop over the files gives the fold of single links, up to a failure |
| BuildIds.LinkAllLinks | crates/ucrs-decoder/src/symbols.rs:189-211 | indexing links each build-id of the files to a file that has it and leaves all other links alone |
| BuildIds.SymbolPool.EnsureKernel | crates/ucrs-decoder/src/symbols.rs:48-132 | trees and links after a use of a cached tree, a drop, a fetch or any failure |
| BuildIds.CachedUnlessOther | crates/ucrs-decoder/src/symbols.rs:62-86 | a cached kernel is used as it is unless its build-id and the reporting one are known and differ in more than the case of letters; then its tree goes and is fetched anew |
| BuildIds.LinksStayRight | crates/ucrs-decoder/src/symbols.rs:48-163 | over runs in which no cached tree is dropped as stale, every link leads to an existing file with the link's build-id |
| BuildIds.ResolveRight | crates/ucrs-common/src/buildid.rs:12-24 | after such runs `resolve` answers for exactly the indexed build-ids, in any letter case, with a file of that build-id |
| BuildIds.FetchResolves | crates/ucrs-decoder/src/symbols.rs:85-132 | a whole tarball with a kernel makes the fetch succeed and each of its listed files with a build-id of two bytes or more resolvable by it, in any letter case |
| BuildIds.SymbolPool.Gc | crates/ucrs-decoder/src/symbols.rs:133-163 | after both loops no link dangles, a live link is lost exactly if its tree went, also when another tree has the build-id, and exactly the removable snapshot trees unused since the cutoff are gone |
| BuildIds.MisleadsIff | crates/ucrs-decoder/src/symbols.rs:48-163 | from any pool without a wrong link, dangling links included, any event keeps it so exactly if it misleads none: no link, dangling since an earlier drop or not, meets its file with another build-id in the unpacked tree without being taken over or lost, wherever dropping, extracting or indexing stops |
| BuildIds.NeverWrongIff | crates/ucrs-decoder/src/symbols.rs:48-163 | over every run no link is ever wrong exactly if no event of it misleads one; a failed fetch after a drop misleads none itself, but the next fetch to that place may |
| BuildIds.UsedTreeStays | crates/ucrs-decoder/src/symbols.rs:66-155 | a tree just used or fetched outlives every collection of trees unused since then or before, and a release's tree every collection |
| BuildIds.RebuiltSnapshotMisleads | crates/ucrs-decoder/src/symbols.rs:68-86 | a rebuilt snapshot does that: the old build-id resolves to the new kernel |
| Slugs.Reports.SetVisibility | crates/ucrs-server/src/api.rs:379-409 | the two statements are two steps of the interleaved calls; with both through, publishing gives the slug the report has or the new one unless another report has it, and unpublishing succeeds; no other row changes |
| Slugs.Reports.PublicReport | crates/ucrs-server/src/web.rs:476-492 | the lookup finds a public report with the slug, or there is none |
| Slugs.SlugServes | crates/ucrs-server/src/api.rs:379-409 | in every interleaving a report is public exactly if it has a slug, and a slug serves a report exactly if the report's last update published it under this slug; at most one |
| Slugs.PublishAgain | crates/ucrs-server/src/api.rs:391-402 | publishing a public report again succeeds in every reachable state, with its slug, and changes no row |
| Slugs.SlugsStableIff | crates/ucrs-server/src/api.rs:391-402 | in every interleaving a report keeps its slug until it is unpublished exactly if no publishing update gets through after the report got another slug |
| Slugs.SlugsStable | crates/ucrs-server/src/api.rs:391-402 | so it does when no two calls for one report overlap, whatever calls for others do |
| Slugs.OverlapLosesSlug | crates/ucrs-server/src/api.rs:384-402 | two overlapping calls for an unpublished report leave the first caller's slug dead |

## Left out

- Signature.Compute: gives the text that is hashed, not its SHA-256; equal texts stand for equal signatures.
- Signature.KeyInjective: for parts without a bar only; `Signature.BarConfuses` shows why. The two kinds contain none.
- Decoder.Store.Drain: assumes that no claim fails, as a failing claim makes the loop sleep and try again without end.
- Decoder.Store.DecodeReport: decompression, symbol lookup and scrubbing of the payload are one arbitrary answer, so the stored text is not tied to the payload's bytes.
- Ingest.Server.PostReport: starts at the id check; authentication, multipart and JSON parsing, the format and checksum checks and the size caps are single branches before it.
- Nonces.NonceMap.DeviceChallenge: the cleanup reads the clock once for all entries.
- Scrub.NoMacSurvives: the IPv4 and IPv6 patterns are arbitrary cuts of the text, so which addresses they mask is not modelled; `Pipeline.PipelineTransparent` asks of the cuts only that matches hold no blank, '+' or 'x' and end at a word boundary, and of locations that scrubbing leaves them alone.
- BuildIds.LinksStayRight: a tree is removed whole or not at all, and links are always removable.
- BuildIds.SymbolPool.EnsureKernel: download, checksum and extraction are one answer, and malformed target paths other than two components are not modelled.
- Annotate.Annotate: the pattern is modelled by its own matcher with the first match from the left; the resolver is an arbitrary function, and ELF and DWARF lookup are not part of this model.
- HTTP routing, dashboard queries, templates, sessions, password login, tokens and their expiry: plumbing over libraries or single branches.
- Ed25519, SHA-256, argon2, base64, decompression and tar: foreign code.
- Columns that nothing here depends on: board, architecture, revision, kernel, last error, issue link and triage state of a group.
