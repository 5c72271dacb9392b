# TextToVid core, modelled in Dafny

TextToVid is a FastAPI service that turns a subject into a short video. A
language model writes a script and search terms for stock footage, and the
rendered files are streamed back over HTTP. This project models the parts
of it that hold logic of their own:

- **The bounded task manager** (`TaskManager`, `InMemoryTaskManager`). Jobs
  are either dispatched to a thread or queued. Each thread raises a
  `current_tasks` counter, runs its job, lowers the counter and then admits
  the oldest queued job if the counter is below the limit.
  - `ManagerModel` is this manager as a state machine. Every thread goes
    through separate atomic events: dispatch, start (the increment),
    finish (body plus decrement) and recheck (`check_queue`).
  - `BaseManager.TaskManager` is a class whose methods update its fields
    in place. Each method is proved to perform the matching event.
    `BaseManager.TaskManager.RunSchedule` performs a whole interleaving.
  - `ManagerProperties` proves what holds on every interleaving and
    exhibits the schedules where the limit is broken.
  - `AtomicAdmission` is the manager with admission and increment done in
    one critical section. On it the limit holds on every schedule.
- **String utilities**: the sentence splitter `split_string_by_punctuations`,
  `str_contains_punctuation`, and the value sanitiser behind `to_json`.
  The punctuation set is a parameter.
- **Video streaming and task lookup** (`Views`):
  - the byte range `stream_video` derives from a `Range` header, with
    byte-range specs, suffix ranges and the `Content-Range` header of
    sections 2.1 and 4.2 of RFC 7233;
  - its response headers;
  - the chunked reader `file_iterator`, over a byte sequence;
  - the URL rewriting `file_to_uri`, and `get_task`, which applies it to a
    task's video lists in place.
- **Script and term generation** (`GenerateText`):
  - the provider and configuration checks of `_generate_response`;
  - the markdown cleanup `format_response`, which handles the greedy
    per-line `re.sub` exactly;
  - the bounded retry loops of `generate_script` and `generate_terms`.

  The language model is an oracle `llm(i, prompt)`, the reply to the i-th
  call. `json.loads` is an oracle `parse(text)`, `None` when it raises.

`Text` models the Python string operations the code relies on (`strip`,
`rstrip`, `in`, `replace`, `split`, `join`, `int()`, `str()`). `Wrappers`
holds `Option` and `Result`.

Methods are proved against specification functions, and lemmas prove what
those functions promise.

## Model

| member | source | states |
|---|---|---|
| BaseManager.TaskManager.constructor | app/services/manager/base_manager.py:15-25 | The counter starts at 0 with an empty queue and no threads. The limit is stored exactly as given, with no check. |
| BaseManager.TaskManager.ExecuteTask | app/services/manager/base_manager.py:48-60 | Exactly one new thread, for this job and not yet started, is appended. The counter and the queue are unchanged. |
| BaseManager.TaskManager.AddTask | app/services/manager/base_manager.py:27-46 | Below the limit the job is dispatched and the queue is untouched; otherwise it goes to the tail of the queue and nothing is dispatched. The counter never moves, and the queue is never consulted. |
| BaseManager.TaskManager.RunTaskStart | app/services/manager/base_manager.py:71-73 | The started thread raises the counter by exactly one and becomes Running. Nothing else changes. |
| BaseManager.TaskManager.RunTaskFinish | app/services/manager/base_manager.py:74-78 | Whether the body returned or raised, the counter drops by exactly one and the thread is in `task_done`. |
| BaseManager.TaskManager.CheckQueue | app/services/manager/base_manager.py:80-91 | At most one job is admitted, only below the limit, and it is the queue's head with its stored arguments. An empty queue or a full manager changes nothing. |
| BaseManager.TaskManager.TaskDoneCheck | app/services/manager/base_manager.py:93-97 | The thread ends, and then `check_queue` runs as its own critical section, separate from the decrement. |
| BaseManager.TaskManager.Perform | app/services/manager/base_manager.py:27-97 | One event of an interleaving leaves the manager in the state the model's step gives. |
| BaseManager.TaskManager.RunSchedule | app/services/manager/base_manager.py:27-97 | Running a whole interleaving, event by event, leaves the manager in the model's final state. |
| ManagerProperties.CounterCountsRunningJobs | app/services/manager/base_manager.py:71-78 | On every schedule, `current_tasks` equals the number of jobs between their increment and their decrement, and it is never negative. |
| ManagerProperties.SerialScheduleRespectsLimit | app/services/manager/base_manager.py:37-73 | When every dispatched job starts before the next admission check, the counter stays between 0 and the limit. |
| ManagerProperties.OverAdmission | app/services/manager/base_manager.py:37-73 | With a limit of 1, two `add_task` calls made before either thread has started lead to two running jobs. |
| ManagerProperties.NewJobOvertakesQueuedJob | app/services/manager/base_manager.py:37-97 | After a job finishes and before its `check_queue`, a new job is admitted ahead of an older queued one. The queued job is then admitted too, so two jobs run under a limit of 1. |
| ManagerProperties.NonPositiveLimitNeverRuns | app/services/manager/base_manager.py:22-37 | With a limit of 0 or less no thread is ever started, and the queue is every submitted job in submission order. |
| ManagerProperties.QueueShrinksOnlyInCheckQueue | app/services/manager/base_manager.py:46-97 | One step leaves the queue unchanged, appends the submitted job, or is a `task_done` recheck that removes the head and dispatches it. |
| ManagerProperties.CompletingOnlyAfterFinish | app/services/manager/base_manager.py:74-96 | A thread reaches `task_done` only by its own finish step. |
| ManagerProperties.QueueIsFifo | app/services/manager/base_manager.py:46-85 | On any schedule, the old queue followed by what was enqueued equals what was dequeued followed by the new queue. |
| ManagerProperties.QueuedJobsHaveALiveThread | app/services/manager/base_manager.py:71-97 | With a positive limit, whenever jobs are queued some thread has not yet ended, so some `check_queue` is still to come. |
| ManagerProperties.FailedJobStillAdmitsNext | app/services/manager/base_manager.py:75-97 | A job whose body raises still frees its slot, and its own `task_done` admits the queued job. |
| AtomicAdmission.LimitAlwaysHolds | app/services/manager/base_manager.py:36-91 | With admission and increment in one critical section, on every schedule the counter lies between 0 and a non-negative limit and counts the admitted unfinished jobs. A job waits only while the limit is reached. |
| AtomicAdmission.SecondJobWaits | app/services/manager/base_manager.py:36-46 | The schedule that over-admits on the original manager queues the second job on the corrected one. |
| MemoryManager.InMemoryTaskManager.constructor | app/services/manager/memory_manager.py:7 | The in-memory manager starts as a fresh task manager with the given limit. |
| MemoryManager.InMemoryTaskManager.CreateQueue | app/services/manager/memory_manager.py:14-21 | The new queue is empty. |
| MemoryManager.InMemoryTaskManager.Enqueue | app/services/manager/memory_manager.py:23-31 | The task is appended at the tail. Every earlier element stays in place, and the counter and threads are unchanged. |
| MemoryManager.InMemoryTaskManager.Dequeue | app/services/manager/memory_manager.py:33-41 | The head is returned and removed; the rest of the queue keeps its order. |
| MemoryManager.InMemoryTaskManager.IsQueueEmpty | app/services/manager/memory_manager.py:43-50 | True exactly when the queue holds no task. |
| MemoryManager.InMemoryTaskManager.EnqueueThenDequeue | app/services/manager/memory_manager.py:23-41 | A task put on an empty queue is the next one taken off, and the queue is empty again. The running counter and the threads are unchanged. |
| StringUtils.SplitSpec | app/utils/string_utils.py:50-81 | The result `split_string_by_punctuations` promises; specified by SplitSpecLocated and SplitSpecPieces, and met by SplitStringByPunctuations. |
| StringUtils.SplitStringByPunctuations | app/utils/string_utils.py:50-81 | The loop, with its carried `previous_char`/`next_char`, returns exactly the specification's stripped non-empty pieces between breaks. |
| StringUtils.SplitSpecLocated | app/utils/string_utils.py:56-80 | Each result element is the text of a span of the input. The spans are in left-to-right order and contain no break. |
| StringUtils.SplitSpecPieces | app/utils/string_utils.py:58-80 | Every element is non-empty, whitespace-stripped and free of newlines. A punctuation character in it can only be a '.' between two digits. |
| StringUtils.DecimalTest | app/utils/string_utils.py:63-68 | The source's test on its carried neighbours is true exactly when the '.' at i has digits on both sides in the input. |
| StringUtils.SpansPartition | app/utils/string_utils.py:56-78 | The pieces cut the input at the breaks, in order, covering every other character. |
| StringUtils.StrContainsPunctuation | app/utils/string_utils.py:42-47 | True exactly when some entry of the punctuation set occurs in the word as a substring. |
| StringUtils.Serialize | app/utils/string_utils.py:11-29 | Scalars come back unchanged, bytes become "*** binary data ***", and anything without `__dict__` becomes None. Lists and tuples become lists of the same length, dicts keep their keys, and objects become dicts keyed by attribute name. The result contains only scalars, lists and dicts. |
| StringUtils.SerializeFixesShaped | app/utils/string_utils.py:11-29 | A value already made of scalars, lists and dicts is returned unchanged. |
| StringUtils.SerializeIdempotent | app/utils/string_utils.py:11-29 | Serialising twice is serialising once. |
| StringUtils.TupleSerializesAsList | app/utils/string_utils.py:22-23 | A tuple serialises exactly as the list of its items, element by element. |
| StringUtils.ToJson | app/utils/string_utils.py:8-37 | The result is present exactly when every dict reachable from the input (through list and tuple items, dict values and object attributes) has only scalar keys; it is then the serialised value, made of scalars, lists and dicts. |
| StringUtils.DumpableKeysSerialized | app/utils/string_utils.py:8-37 | `json.dumps` accepts the keys of `serialize(obj)` exactly when `obj` has only scalar dict keys all the way down, in both directions. |
| StringUtils.TupleKeyFails | app/utils/string_utils.py:30-37 | A dict keyed by a tuple, nested inside a list, makes `to_json` fail. |
| StringUtils.ObjectIsItsAttributes | app/utils/string_utils.py:24-26 | An object serialises as the dict of its attributes, and `to_json` accepts it exactly when every attribute value has only scalar dict keys. |
| Text.Strip | app/utils/string_utils.py:59-78 | `str.strip()`; specified by StripIsStrippedInfix, LStripDropsLeadingSpace, RStripDropsTrailingSpace and StripOfStripped. |
| Text.Replace | app/repositories/gen_text/generate_text.py:168 | `str.replace`; specified by ReplaceChars, ReplaceRemovesChar and ReplaceAbsent. |
| Text.Split | app/web/api/gen_tvc/views.py:331-332 | `str.split(sep)`; specified by JoinSplit, SplitAbsent, SplitAtChar, SplitPartsAvoid, SplitPartChars and SplitJoin. |
| Text.Join | app/repositories/gen_text/generate_text.py:173-175 | `sep.join(parts)`; specified by JoinSplit, SplitJoin, JoinFirst and JoinChars. |
| Text.ParseInt | app/web/api/gen_tvc/views.py:332 | `int(part)` on a decimal text; specified by ParseIntToString and ParseIntOfStripped. |
| Text.ReplaceChars | app/repositories/gen_text/generate_text.py:168 | Every character of the result comes from the input or from the replacement. |
| Text.SplitAbsent | app/web/api/gen_tvc/views.py:331-332 | A text without the separator splits into itself alone. |
| Text.SplitAtChar | app/web/api/gen_tvc/views.py:331-332 | Splitting on a character cuts at its first occurrence and goes on after it. |
| Text.SplitPartsAvoid | app/web/api/gen_tvc/views.py:331-332 | No part of a split on a character contains that character. |
| Text.SplitPartChars | app/web/api/gen_tvc/views.py:331-332 | Every character of a part occurs in the split text. |
| Text.JoinChars | app/repositories/gen_text/generate_text.py:173-175 | Every character of a join comes from the separator or from one of the parts. |
| Text.StripOfStripped | app/utils/string_utils.py:59-78 | Stripping a stripped text changes nothing. |
| Text.StripIsStrippedInfix | app/utils/string_utils.py:59-78 | `strip` returns a contiguous piece of the text with no whitespace at either end. Everything removed from either side is whitespace. |
| Text.LStripDropsLeadingSpace | app/utils/string_utils.py:59 | The left strip drops exactly the leading whitespace. |
| Text.RStripDropsTrailingSpace | app/utils/string_utils.py:59 | The right strip drops exactly the trailing whitespace. |
| Text.RStripChar | app/web/api/gen_tvc/views.py:171 | `rstrip("/")` returns a prefix that does not end in '/'. Everything dropped is '/'. |
| Text.IsSubstringIffOccurs | app/repositories/gen_text/generate_text.py:224 | `in` on strings is true exactly when the needle occurs at some position. |
| Text.ReplaceRemovesChar | app/repositories/gen_text/generate_text.py:168 | After replacing a character by text without it, the character is gone. |
| Text.ReplaceAbsent | app/repositories/gen_text/generate_text.py:168 | Replacing a pattern that does not occur changes nothing. |
| Text.JoinSplit | app/repositories/gen_text/generate_text.py:173-175 | Joining the parts of a split with the same separator returns the text. |
| Text.SplitJoin | app/repositories/gen_text/generate_text.py:169-170 | Splitting a join of parts that avoid the one-character separator returns the parts. |
| Text.ParseIntToString | app/web/api/gen_tvc/views.py:332-357 | Parsing the decimal text `str` gives for an integer returns that integer, for every integer. |
| Text.ParseIntOfStripped | app/web/api/gen_tvc/views.py:332 | `int()` accepts an optional '-' followed by digit groups joined by single '_', and returns their value. |
| Views.ParsePart | app/web/api/gen_tvc/views.py:332 | `int(part) if part else None`; specified by ParseNumeral and, through RangeBounds, by the range lemmas below. |
| Views.RangeBounds | app/web/api/gen_tvc/views.py:331-332 | The two bounds of a "bytes=" header, or the error the split or unpacking raises; specified by BoundsOf, ClosedBounds, OpenBounds, SuffixBounds, MissingPrefixFails and TwoDashesFail. |
| Views.ComputeRange | app/web/api/gen_tvc/views.py:325-338 | Whenever a range comes out, its length is end - start + 1. A failure is one of the exceptions the code raises. |
| Views.ParseParts | app/web/api/gen_tvc/views.py:332 | The list comprehension yields one value per part, or fails with ValueError. |
| Views.NoRangeIsWholeFile | app/web/api/gen_tvc/views.py:326-330 | With no or an empty Range header the range is 0 to size - 1, of length size. |
| Views.ClosedRange | app/web/api/gen_tvc/views.py:331-338 | "bytes=a-b" gives start a, end b and length b - a + 1, with no clamp to the file and no check that a <= b. |
| Views.OpenRange | app/web/api/gen_tvc/views.py:336-338 | "bytes=a-" ends at size - 1, with length size - a. |
| Views.SuffixRange | app/web/api/gen_tvc/views.py:333-338 | "bytes=-n" gives the suffix range size - n to size - 1, of length n. |
| Views.RangeOfBounds | app/web/api/gen_tvc/views.py:333-338 | How the two optional bounds become the range, including the TypeError when both are missing. |
| Views.BothBoundsMissingFails | app/web/api/gen_tvc/views.py:333-334 | "bytes=-" raises TypeError. |
| Views.MissingPrefixFails | app/web/api/gen_tvc/views.py:331 | A header without "bytes=" raises IndexError instead of serving the whole file. |
| Views.TwoDashesFail | app/web/api/gen_tvc/views.py:332 | A spec with more than one '-' raises ValueError in the unpacking. |
| Views.ResponseHeaders | app/web/api/gen_tvc/views.py:355-358 | Status is 206 even without a Range header, Accept-Ranges is "bytes", and Content-Range is "bytes start-end/size". |
| Views.ContentLengthRoundTrip | app/web/api/gen_tvc/views.py:357 | Content-Length reads back as the computed length. |
| Views.ContentRangeRoundTrip | app/web/api/gen_tvc/views.py:355 | Content-Range reads back as start, end and size. |
| Views.ReadAt | app/web/api/gen_tvc/views.py:346 | A read returns at most the requested count. It returns nothing exactly when the count is 0 or the position is at or past the end. |
| Views.Remaining | app/web/api/gen_tvc/views.py:343 | `bytes_to_read or video_size`; its use is stated by StreamedBytesFromOffset. |
| Views.StreamedBytes | app/web/api/gen_tvc/views.py:340-350 | The bytes the generator yields, or the seek's error; specified by StreamedBytesFromOffset and met by FileIterator. |
| Views.ReadChunks | app/web/api/gen_tvc/views.py:344-350 | The read loop stops after the requested number of bytes or at the end of the file. Its chunks concatenate to the bytes between the offset and where it stopped, and each but the last is full. |
| Views.StreamedBytesFromOffset | app/web/api/gen_tvc/views.py:340-350 | From a non-negative offset the stream succeeds exactly when the offset is at most 2^63 - 1, and fails with the seek's overflow otherwise. On success the body is the file's bytes from the offset. Its length is min(remaining, size - offset), where remaining is `bytes_to_read`, or the file size when that is 0 or None. |
| Views.FileIterator | app/web/api/gen_tvc/views.py:340-350 | The loop fails exactly when the seek does: on a negative offset, or one above 2^63 - 1, with the matching error. Otherwise its chunks concatenate to the streamed body, each holds 1 to 4096 bytes, and all but the last hold 4096. |
| Views.FlattenAppend | app/web/api/gen_tvc/views.py:349-350 | Yielding one more chunk extends the streamed body by that chunk. |
| Views.ContentLengthExceedsBody | app/web/api/gen_tvc/views.py:338-349 | A range ending past the file announces b - a + 1 bytes but streams only the tail from a. |
| Views.EmptyRangeStreamsTail | app/web/api/gen_tvc/views.py:338-343 | "bytes=a-(a-1)" announces length 0, yet the `or` turns 0 into the file size and a non-empty tail is streamed. |
| Views.LongSuffixFailsSeek | app/web/api/gen_tvc/views.py:333-342 | A suffix longer than the file gives a negative start, and the seek fails. |
| Views.HugeStartFailsSeek | app/web/api/gen_tvc/views.py:331-342 | A header "bytes=N-" with N = 2^63 in decimal is accepted as an open range from N, and streaming it fails because the seek overflows. |
| Views.ComputeRangeClamped | app/web/api/gen_tvc/views.py:325-338 | Corrected range, following RFC 7233: the length is still end - start + 1. |
| Views.ClampedRangeInsideFile | app/web/api/gen_tvc/views.py:325-338 | A corrected range lies inside the file, and it is empty only for an empty file. |
| Views.ClampedLongSuffixIsWholeFile | app/web/api/gen_tvc/views.py:333-338 | With the corrected range, a suffix at least as long as a non-empty file gives the whole file, 0 to size - 1. |
| Views.ClampedBodyMatchesContentLength | app/web/api/gen_tvc/views.py:338-357 | With the corrected range, the streamed body is exactly the bytes start to end, and Content-Length reads back as the body's length. |
| Views.BodyOfRange | app/web/api/gen_tvc/views.py:340-353 | A range inside the file streams exactly its bytes. |
| Views.ClampedAgreesInsideFile | app/web/api/gen_tvc/views.py:331-338 | For a range inside the file the corrected computation agrees with the original. |
| Views.Endpoint | app/web/api/gen_tvc/views.py:168-171 | The endpoint is the base URL with its trailing '/' characters stripped, and only those. |
| Views.FileToUri | app/web/api/gen_tvc/views.py:178-184 | `file_to_uri`; specified by FileToUriUnderEndpoint, FileToUriIdempotent and FileToUriPlainPath. |
| Views.FileToUriUnderEndpoint | app/web/api/gen_tvc/views.py:178-184 | Every URI starts with the endpoint, and a path already under it is returned unchanged. Any other path becomes endpoint + "/" + a rest without backslashes. |
| Views.FileToUriIdempotent | app/web/api/gen_tvc/views.py:178-184 | Rewriting a rewritten URI changes nothing. |
| Views.FileToUriPlainPath | app/web/api/gen_tvc/views.py:180-181 | A path containing neither the task directory nor backslashes is only prefixed with endpoint + "/". |
| Views.RewriteUrls | app/web/api/gen_tvc/views.py:188-190 | The loop's list is the element-wise rewriting of the items. |
| Views.UriListElementwise | app/web/api/gen_tvc/views.py:186-197 | The rewritten list keeps the length and order, and element k is the URI of item k. |
| Views.UriListIdempotent | app/web/api/gen_tvc/views.py:186-197 | Rewriting a rewritten list changes nothing. |
| Views.RewriteTask | app/web/api/gen_tvc/views.py:186-197 | The rewriting of the task's two URI lists; specified by RewriteFailsIffNotIterable, RewriteKeepsOtherKeys, RewriteMapsLists and RewriteTaskIdempotent. |
| Views.RewriteFailsIffNotIterable | app/web/api/gen_tvc/views.py:186-197 | The rewriting raises exactly when "videos" or "combined_videos" holds a value that cannot be iterated. |
| Views.RewriteKeepsOtherKeys | app/web/api/gen_tvc/views.py:186-197 | The keys stay the same, and no key other than the two is touched. |
| Views.RewriteMapsLists | app/web/api/gen_tvc/views.py:186-197 | Each of the two keys ends up holding the element-wise URI list of what it held before. |
| Views.RewriteTaskIdempotent | app/web/api/gen_tvc/views.py:186-197 | Rewriting a rewritten task changes nothing. |
| Views.TaskRecord.constructor | app/web/api/gen_tvc/views.py:174 | A task record holds the fields it is given. |
| Views.RewriteValue | app/web/api/gen_tvc/views.py:187-191 | Fails exactly on a value that cannot be iterated; otherwise returns its URI list. |
| Views.GetTask | app/web/api/gen_tvc/views.py:168-202 | A missing or empty task gives 404 with "<request id>: task not found" and is left alone. Otherwise the task's fields are rewritten in place and returned with 200, or the TypeError propagates. |
| GenerateText.FirstIndex | app/repositories/gen_text/generate_text.py:169-170 | The first occurrence of the opener. |
| GenerateText.LastIndex | app/repositories/gen_text/generate_text.py:169-170 | The last occurrence of the closer. |
| GenerateText.SubLine | app/repositories/gen_text/generate_text.py:169-170 | The greedy substitution on one line; specified by SubLineNoPair. |
| GenerateText.SubGreedy | app/repositories/gen_text/generate_text.py:169-170 | `re.sub(r"\[.*]", "", ...)` and its parenthesis twin; specified by SubGreedyLines, SubGreedyNoPair, SubGreedyKeepsNoPair, SubGreedyChars and SubGreedyOfClean. |
| GenerateText.StripMarkup | app/repositories/gen_text/generate_text.py:168 | Removing every '*' and '#'; specified by StripMarkupRemoves. |
| GenerateText.FormatResponse | app/repositories/gen_text/generate_text.py:157-175 | `format_response`; specified by FormatResponseNoMarkup, FormatResponseNoPairs, FormatResponseIdempotent, FormatResponseOfPlain and FormatKeepsHead. |
| GenerateText.SubLineNoPair | app/repositories/gen_text/generate_text.py:169-170 | After the greedy substitution, no opener in the line comes before a closer. |
| GenerateText.SubGreedyLines | app/repositories/gen_text/generate_text.py:169-170 | The substitution works line by line: the output's lines are the substituted input lines, since `.` does not cross a newline. |
| GenerateText.SubGreedyNoPair | app/repositories/gen_text/generate_text.py:169-170 | After `re.sub`, no line has an opener before a closer. |
| GenerateText.SubGreedyKeepsNoPair | app/repositories/gen_text/generate_text.py:169-170 | Removing parentheses does not bring back a bracket pair. |
| GenerateText.SubGreedyChars | app/repositories/gen_text/generate_text.py:169-170 | The substitution only deletes characters. |
| GenerateText.SubGreedyOfClean | app/repositories/gen_text/generate_text.py:169-170 | Text with no pair on any line is left unchanged. |
| GenerateText.StripMarkupRemoves | app/repositories/gen_text/generate_text.py:168 | No '*' and no '#' remain. |
| GenerateText.FormatResponseNoMarkup | app/repositories/gen_text/generate_text.py:157-175 | The formatted text contains no '*' and no '#'. |
| GenerateText.FormatResponseNoPairs | app/repositories/gen_text/generate_text.py:157-175 | No line of the formatted text has a '[' before a ']' or a '(' before a ')'. |
| GenerateText.FormatResponseIdempotent | app/repositories/gen_text/generate_text.py:157-175 | Formatting a formatted text changes nothing. |
| GenerateText.FormatResponseOfPlain | app/repositories/gen_text/generate_text.py:157-175 | Text without '*', '#', '[' and '(' is returned unchanged; the paragraph split and join is the identity. |
| GenerateText.FormatKeepsHead | app/repositories/gen_text/generate_text.py:168-175 | A text starting with an ordinary character still starts with it once formatted. |
| GenerateText.ResolveClient | app/repositories/gen_text/generate_text.py:33-59 | The provider checks of `_generate_response`; specified by ResolveClientSpec. |
| GenerateText.GenerateResponse | app/repositories/gen_text/generate_text.py:28-131 | `_generate_response`; specified by ResponseErrors, FailedReplyIsError and OpenAiContentHasNoNewline. |
| GenerateText.FailedReplyIsError | app/repositories/gen_text/generate_text.py:60-131 | With a valid configuration, an exception, a missing response or an invalid one all become text starting "Error: ". |
| GenerateText.ResolveClientSpec | app/repositories/gen_text/generate_text.py:33-59 | The configuration is rejected exactly when the provider is unknown or its key or model name is empty, with the first failing check's message. The base URL check can never fire. OpenAI's empty base URL defaults to "https://api.openai.com/v1". |
| GenerateText.ResponseErrors | app/repositories/gen_text/generate_text.py:28-131 | A rejected configuration returns "Error: " + its message whatever the provider would say. Every failure comes back as text starting "Error: " instead of being raised. |
| GenerateText.OpenAiContentHasNoNewline | app/repositories/gen_text/generate_text.py:129 | OpenAI content comes back with every '\n' removed, and unchanged when it had none. |
| GenerateText.ScriptPromptSpec | app/repositories/gen_text/generate_text.py:151-152 | The prompt is the template, extended by "\n- language: " + language exactly when a language is given. |
| GenerateText.AttemptScript | app/repositories/gen_text/generate_text.py:179-183 | What one attempt leaves in `final_script`; met by Attempt. |
| GenerateText.Attempt | app/repositories/gen_text/generate_text.py:179-183 | One pass of the loop body returns that attempt's formatted text, and a non-empty script only for a non-empty response. |
| GenerateText.RetryFirst | app/repositories/gen_text/generate_text.py:177-187 | The retry loop from one attempt on; specified by RetryFirstSpec and met by GenerateScript. |
| GenerateText.GenerateScript | app/repositories/gen_text/generate_text.py:149-197 | The loop returns the stripped result of the retry specification and makes one to five calls. |
| GenerateText.RetryFirstSpec | app/repositories/gen_text/generate_text.py:177-187 | At most five attempts are made. The loop stops at the first non-empty formatted response and returns it. Every earlier attempt was empty, and the loop's result is "" only after five empty attempts. A formatted response of only whitespace is non-empty, so it still ends the loop after one call, and the final `.strip()` then makes the script "". |
| GenerateText.ConfigErrorBecomesScript | app/repositories/gen_text/generate_text.py:130-187 | A rejected configuration ends the loop at the first call with the formatted error text, which is not empty. |
| GenerateText.FirstBracketed | app/repositories/gen_text/generate_text.py:237 | `re.search(r"\[.*]", ...)` line by line; specified by BracketMatchShape. |
| GenerateText.BracketMatch | app/repositories/gen_text/generate_text.py:237 | The bracketed part of a response; specified by BracketMatchShape. |
| GenerateText.BracketMatchShape | app/repositories/gen_text/generate_text.py:237 | The `re.search` match starts with '[' and ends with ']'. |
| GenerateText.CheckTerms | app/repositories/gen_text/generate_text.py:245-246 | The loop's `break` test; its outcomes are stated by ListBreaksLoop and StaleNumberRaises. |
| GenerateText.TermsAttempt | app/repositories/gen_text/generate_text.py:221-246 | One iteration of the terms loop as written; specified by TermsLoopStep, TermsLoopSpec and ListBreaksLoop. |
| GenerateText.TermsLoop | app/repositories/gen_text/generate_text.py:221-246 | The terms loop from one iteration on; specified by TermsLoopSpec and met by GenerateTerms. |
| GenerateText.TermsLoopStep | app/repositories/gen_text/generate_text.py:221-246 | An iteration that returns ends the loop with its outcome after one more call; one that goes on continues with its new `search_terms`. |
| GenerateText.Respond | app/repositories/gen_text/generate_text.py:223 | The call of one iteration returns that iteration's response. |
| GenerateText.GenerateTerms | app/repositories/gen_text/generate_text.py:219-251 | The loop with its `continue`, fallback and `break` returns what the terms specification gives, with the same number of calls. |
| GenerateText.TermsLoopSpec | app/repositories/gen_text/generate_text.py:221-246 | At most five calls are made, at least one. No response before the last one contains "Error: ". The last response is returned as the error text exactly when it contains "Error: ". |
| GenerateText.ConfigErrorTerms | app/repositories/gen_text/generate_text.py:224-226 | A rejected configuration returns the error text, as a string, after one call. |
| GenerateText.ListBreaksLoop | app/repositories/gen_text/generate_text.py:227-246 | At any iteration, whatever the terms so far, a response decoding to a non-empty list of strings ends the loop with that list after one more call. |
| GenerateText.FirstListIsReturned | app/repositories/gen_text/generate_text.py:227-246 | A first response decoding to a non-empty list of strings is returned after one call. |
| GenerateText.StaleNumberRaises | app/repositories/gen_text/generate_text.py:227-245 | Replies "5" and then "" make `generate_terms` raise TypeError after two calls. |
| GenerateText.CheckedTermsAreStrings | app/repositories/gen_text/generate_text.py:227-246 | The corrected loop never raises TypeError, returns only lists of strings or an error text, and makes at most five calls. |
| GenerateText.StaleNumberFixed | app/repositories/gen_text/generate_text.py:227-246 | On the same replies the corrected loop returns the empty list after five calls. |

## Left out

- Threads and the lock are not modelled as running code. Each critical section is one atomic event, and a schedule is any order of events that keeps every thread in program order.
- MemoryManager.InMemoryTaskManager.Dequeue: requires a non-empty queue, where the source blocks until another thread puts a task. A sequential model has no such other thread.
- `InMemoryTaskManager` holds a `TaskManager` instead of inheriting from it; Dafny has no class inheritance without traits.
- Job bodies are opaque. A job is its function name and argument texts, and a body only returns or raises.
- All logging (`print`, loguru, `logging`) is left out.
- Text.IsDigit: only the ASCII digits, where Python's `str.isdigit` accepts every Unicode digit.
- Text.ParseInt: accepts only ASCII digits, where `int()` also accepts every other Unicode decimal digit (Arabic-Indic, fullwidth and so on). It has no limit on the number of digits, where CPython 3.11 and later raise `ValueError` on a text of more than 4300 digits.
- Text.ParseIntOfStripped: holds for digit groups of any length. CPython 3.11 and later raise `ValueError` instead when there are more than 4300 digits, and such a range header then fails with that error.
- Text.ParseIntToString: holds for every integer. In CPython 3.11 and later both `str()` and `int()` raise `ValueError` for an integer of more than 4300 digits; the byte offsets of a range header stay far below that.
- StringUtils.ToJson: the text `json.dumps` prints (indentation, escapes) is not modelled; the result is the value it would print. Floats pass through unchanged, and cyclic objects (a `RecursionError`) are left out.
- The OpenAI and Gemini clients, their configuration dicts and `json.loads` are oracles. Gemini's generation settings are not modelled.
- GenerateText.GenerateResponse: an OpenAI completion whose content is None raises `AttributeError` on `.replace`, and that text is not modelled. The text of the `UnboundLocalError` for Gemini follows one Python version.
- The `except` in `generate_script` cannot fire, since `_generate_response` and `format_response` do not raise. It is left out.
- The prompt templates `GEN_VIDEO_SCRIPT` and `GEN_VIDEO_TERM` (their module is not part of this model) are parameters: the formatted template text.
- File-system calls (`open`, `seek`, `read`, `getsize`, `os.path.join`) are left out. The file is a byte sequence and a read returns what is there. `seek` fails on a negative offset and on one above 2^63 - 1, the largest signed 64-bit file offset; no file is larger than that, so the lemmas about whole responses assume a file of at most 2^63 - 1 bytes.
- `utils.get_task_id`, `utils.task_dir`, `utils.get_response` and the task store `sm.state` are not part of this model. The request id, task directory, base URL and stored task are parameters.
- Views.FileToUri: reads its parameter, where the source reads the enclosing loop variable `v`. At both call sites `v` is the argument, so the two agree.
- Views.TaskValue: the values under "videos" and "combined_videos" are lists of strings, strings (iterated character by character) or non-iterable values. Lists of other kinds of element are not modelled.
- Views.ComputeRangeClamped: the corrected range still raises on malformed syntax, as the source does. It does not answer 416 or fall back to the whole file for those headers.
- Views.ContentRangeRoundTrip: stated for non-negative start, end and size only, since a negative number's '-' collides with the separator.
- The FastAPI routes, settings loading, uploads, downloads and deletions are outside the core and are left out.

## Findings

| source | as written | input that shows it | evidently intended | confidence | as-written member | corrected member |
|---|---|---|---|---|---|---|
| app/services/manager/base_manager.py:37-73 | `add_task` tests the counter, but only the dispatched thread raises it, later and outside that critical section | limit 1; two `add_task` calls before either thread runs its increment; both threads then start and the counter is 2 | at most `max_concurrent_tasks` jobs running at once | not executed | ManagerProperties.OverAdmission | AtomicAdmission.LimitAlwaysHolds |
| app/web/api/gen_tvc/views.py:331-338 | the end of a byte range is not clamped to the file | a 10-byte file and "bytes=5-20": Content-Length 16, but a body of 5 bytes | end clamped to size - 1, as section 2.1 of RFC 7233 requires | not executed | Views.ContentLengthExceedsBody | Views.ClampedBodyMatchesContentLength |
| app/web/api/gen_tvc/views.py:338-343 | a length of 0 is turned into the file size by `bytes_to_read or video_size` | a 10-byte file and "bytes=5-4": Content-Length 0, but bytes 5 to 9 streamed | an unsatisfiable range answered with 416 (section 4.4 of RFC 7233), never a body | not executed | Views.EmptyRangeStreamsTail | Views.ClampedRangeInsideFile |
| app/web/api/gen_tvc/views.py:333-342 | a suffix longer than the file gives a negative start | a 3-byte file and "bytes=-5": start -2, and the seek raises | the whole file, as section 2.1 of RFC 7233 says for a suffix longer than the representation | not executed | Views.LongSuffixFailsSeek | Views.ClampedLongSuffixIsWholeFile |
| app/repositories/gen_text/generate_text.py:227-245 | a decoded value that is not a list of strings stays in `search_terms` after `continue` | replies "5" (decoded as 5) then "" (not decodable): `len(5)` raises TypeError out of `generate_terms` | only lists of strings are kept as search terms | not executed | GenerateText.StaleNumberRaises | GenerateText.CheckedTermsAreStrings |
