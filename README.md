# SPX profile parser — a verified model

This project models `ProfileParser`, the class behind the SPX MCP server that reads an
SPX profile and computes per-function statistics from it.

**Reading a profile.** The parser reads the profile's lines:
- `[functions]` and `[events]` headers switch the section.
- Lines that PHP's `empty()` treats as empty are skipped.
- Lines of the functions section become function names.
- Lines of the events section become events. An event is a function index, a start flag and
  a map from the active metric keys to readings.

**The statistics pass.** One pass over the events maintains a call stack:
- A start event pushes a frame and counts a call.
- An end event pops the top frame and charges its function. The inclusive cost is end
  minus start, per metric (`wt`, `mu`, `ct`). The exclusive cost is that minus what the
  frame's children spent.
- The end event then adds the inclusive cost to the frame below.
- Three cases throw: an end event on an empty stack, an end event for another function
  than the top frame's, and frames left on the stack at the end.

**Views.** Four top-N views and a summary sit on top of the table.

Modules:
- `PhpBuiltins` (`php_builtins.dfy`): the PHP built-ins the parser relies on. These are
  `trim`, `explode(' ', …)`, `empty()` on strings, and the `(int)`/`(float)` casts, which
  read a numeric prefix.
- `ProfileData` (`profile_data.dfy`):
  - the active metric keys;
  - line classification and the section reader (`SplitSections`);
  - event decoding (`DecodeEvent`) with an encoder that it round-trips.
- `StatsEngine` (`stats_engine.dfy`): the statistics pass as pure functions.
  - `Step` is one event, `Replayed` the walk and `Run` the whole pass with the final
    stack check.
  - The function table is an insertion-ordered dictionary (`StatsTable`), as a PHP array
    is.
  - Its lemmas cover the error cases, call counts, key bookkeeping and prefix behaviour.
- `CallTrees` (`call_trees.dfy`): a reference semantics for well-nested profiles.
  - A forest of calls is flattened to events, and a structural fold gives the expected
    table.
  - The walk over the flattened events never fails and yields exactly that table.
  - From this follow:
    - the leaf rule (inclusive equals exclusive);
    - the parent/child rule (the parent's exclusive cost is its inclusive cost minus the
      child's);
    - conservation of exclusive cost;
    - the behaviour on self-recursion.
- `Views` (`views.dfy`):
  - the stable descending sort that `usort` performs;
  - `array_slice` with a positive or negative limit;
  - the four top-N lists;
  - the summary.
- `ProfileParsing` (`profile_parser.dfy`): the `ProfileParser` class, with the fields
  `functions`, `events`, `metrics` and `functionStats`.
  - `Parse`, `ParseEvent` and `CalculateStats` update the fields in place. The loops of
    `parse` (`ReadLines`), of `parseEvent` (`MetricsOf`) and of `calculateStats` are each
    proved against the pure functions above.
  - `parse` appends names and events to what the object already holds. It then replays
    every event held onto the table already held. A second `Parse` on the same object
    therefore counts the first profile's events twice; the model follows that.

## Model

| member | source | states |
|---|---|---|
| ProfileParsing.ProfileParser.constructor | src/Mcp/SPX/ProfileParser.php:17-20 | The active metrics are the keys whose enabled flag is truthy, in the given order. The names, events and statistics start empty. |
| ProfileData.ActiveMetrics | src/Mcp/SPX/ProfileParser.php:19 | A key is active exactly when some entry gives it a truthy flag. There are never more active keys than entries. |
| ProfileData.ActiveMetricsAppend | src/Mcp/SPX/ProfileParser.php:19 | Filtering keeps the original order: the active keys of a + b are those of a followed by those of b. |
| ProfileData.ActiveMetricsDistinct | src/Mcp/SPX/ProfileParser.php:19 | Distinct keys in the metadata give distinct active metric keys. |
| ProfileParsing.ProfileParser.Parse | src/Mcp/SPX/ProfileParser.php:28-59 | A file that cannot be opened gives the open error and leaves the object unchanged. Otherwise: the section reader's names are appended to the names; the section reader's event lines are decoded and appended to the events; the table becomes the statistics pass over all events held, starting from the table held; the error is None exactly when that pass goes through, and otherwise is the pass's own error. |
| ProfileParsing.ProfileParser.ReadLines | src/Mcp/SPX/ProfileParser.php:35-55 | The reading loop appends exactly the names and the decoded event lines that `SplitSections` assigns to the two sections, and changes nothing else. |
| ProfileParsing.ProfileParser.ReadLine | src/Mcp/SPX/ProfileParser.php:37-54 | One line: a header switches the section, an `empty()` line is skipped, and otherwise the trimmed line is stored as a name or decoded as an event according to the section in force. |
| ProfileData.UsualLayout | src/Mcp/SPX/ProfileParser.php:35-55 | For lines before a header, `[functions]`, a body, `[events]`, a body: the names are the functions body's non-empty trimmed lines in order (name i is its i-th kept line), and the event lines are the events body's, while everything before the first header is dropped. |
| ProfileData.SectionBody | src/Mcp/SPX/ProfileParser.php:48-54 | Within a section, the kept lines are exactly the trimmed lines that are not `empty()`, stored in order, and the section stays in force. |
| ProfileData.BeforeFirstHeader | src/Mcp/SPX/ProfileParser.php:35-54 | Lines read before any header store nothing and leave no section in force. |
| ProfileData.ClassifyHeaders | src/Mcp/SPX/ProfileParser.php:39-46 | `[functions]` and `[events]` switch to their sections and are not stored. |
| ProfileData.SplitSectionsKept | src/Mcp/SPX/ProfileParser.php:37-54 | Every stored name and event line is trimmed, is not `empty()` and is not a header. |
| ProfileData.ReadAppend | src/Mcp/SPX/ProfileParser.php:35-55 | Reading a + b is reading a, then reading b in the section in force after a; nothing read from a is lost or reordered. |
| ProfileParsing.ProfileParser.ParseEvent | src/Mcp/SPX/ProfileParser.php:64-84 | Appends exactly the decoded line to the events and changes nothing else. |
| ProfileParsing.MetricsOf | src/Mcp/SPX/ProfileParser.php:70-77 | The metrics loop stores token k (k ≥ 2), cast to a number, under key k−2, for as long as there is such a key. |
| ProfileData.DecodeEncoded | src/Mcp/SPX/ProfileParser.php:64-84 | An encoded event line decodes back to its function index and start flag. Value j is stored under metric key j whenever both exist, and no other key is stored. |
| ProfileData.AssignMetricsValues | src/Mcp/SPX/ProfileParser.php:71-76 | With distinct keys, the first n keys carry the first n values. |
| ProfileData.AssignMetricsKeys | src/Mcp/SPX/ProfileParser.php:71-76 | Only the first n keys are stored; tokens beyond the active metric count are ignored. |
| ProfileData.DecodeAll | src/Mcp/SPX/ProfileParser.php:79-83 | Events keep input order: entry i is the decoding of line i. |
| ProfileData.EncodedParts | src/Mcp/SPX/ProfileParser.php:66 | The encoded line splits on spaces into index, start flag and value tokens. |
| PhpBuiltins.CastShow | src/Mcp/SPX/ProfileParser.php:67-75 | `(int)` and `(float)` read a decimal numeral, signed or not, back to its value. |
| PhpBuiltins.ExplodeImplode | src/Mcp/SPX/ProfileParser.php:66 | `explode(' ', …)` of tokens joined by single spaces gives the tokens back. |
| PhpBuiltins.ImplodeExplode | src/Mcp/SPX/ProfileParser.php:66 | Joining the pieces of `explode(' ', s)` with spaces gives s back. |
| PhpBuiltins.ExplodePieces | src/Mcp/SPX/ProfileParser.php:66 | No piece of `explode(' ', s)` contains a space. |
| PhpBuiltins.Trim | src/Mcp/SPX/ProfileParser.php:37 | A trimmed line neither starts nor ends with whitespace and is no longer than the raw line. |
| PhpBuiltins.TrimKeepsTrimmed | src/Mcp/SPX/ProfileParser.php:37 | Trimming a line without surrounding whitespace changes nothing; trim is idempotent. |
| PhpBuiltins.TrimLeftDrops | src/Mcp/SPX/ProfileParser.php:37 | Left trimming drops only whitespace from the front. |
| PhpBuiltins.TrimRightDrops | src/Mcp/SPX/ProfileParser.php:37 | Right trimming drops only whitespace from the back. |
| ProfileParsing.ProfileParser.CalculateStats | src/Mcp/SPX/ProfileParser.php:89-161 | The loop leaves exactly the table of the statistics pass `Run` over the events, starting from the table held, including the partial table when it throws. The error is None exactly when the pass goes through, and is otherwise its error. |
| ProfileParsing.ProfileParser.ApplyEvent | src/Mcp/SPX/ProfileParser.php:94-154 | One loop iteration does exactly one `Step`: the new table and stack on success, or the partial table and the error when it throws. |
| ProfileParsing.ProfileParser.CloseFrame | src/Mcp/SPX/ProfileParser.php:119-154 | The end-event branch does exactly one `Step` of an end event, once the function's entry exists. |
| StatsEngine.StepTable | src/Mcp/SPX/ProfileParser.php:96-107 | Every event gives its function an entry, named from the function table or "Unknown"; keys are only ever appended, and no key is lost. |
| StatsEngine.StepCounts | src/Mcp/SPX/ProfileParser.php:109-118 | A step counts one call of f exactly when it is a start event of f. It pushes or pops one frame. |
| StatsEngine.StepUnderflow | src/Mcp/SPX/ProfileParser.php:121-123 | An end event on an empty stack throws an underflow for its function index. |
| StatsEngine.StepMismatch | src/Mcp/SPX/ProfileParser.php:125-128 | An end event for another function than the top frame's throws a mismatch naming the expected and the actual index. |
| StatsEngine.StepHalts | src/Mcp/SPX/ProfileParser.php:119-128 | A step throws exactly when it is an end event and the stack is empty or the top frame is another function's. |
| StatsEngine.StepEnd | src/Mcp/SPX/ProfileParser.php:130-154 | A matching end event does four things: it adds end minus start to the inclusive cost; it adds that minus the frame's children to the exclusive cost; it pops one frame; and it grows the children of the frame below, and no other frame, by the inclusive cost. The function's name and call count, and every other function's entry, are left as they were. |
| StatsEngine.ReplayedAppend | src/Mcp/SPX/ProfileParser.php:93-156 | The loop over a + b is the loop over a followed by the loop over b; an exception in a ends the whole loop. |
| StatsEngine.ReplayedTable | src/Mcp/SPX/ProfileParser.php:93-107 | The loop keeps the table well formed and named and never reorders keys. When it goes through, the keys are the old ones plus every function index the events mention. |
| StatsEngine.ReplayedCounts | src/Mcp/SPX/ProfileParser.php:109-125 | When the loop goes through, each function's call count has grown by its number of start events. The stack has grown by starts minus ends. |
| StatsEngine.ReplayedPrefix | src/Mcp/SPX/ProfileParser.php:119-125 | In a pass that goes through, no prefix has more end events than the stack held plus its start events. |
| StatsEngine.RunTable | src/Mcp/SPX/ProfileParser.php:93-160 | In a pass that goes through, the stack ends empty and starts equal ends. Every function an event mentions has an entry, and call_count(f) is the old count plus the start events of f. |
| StatsEngine.RunIncomplete | src/Mcp/SPX/ProfileParser.php:158-160 | Frames left over after an error-free loop throw an incomplete-profile error, and the table keeps what the loop built. |
| StatsEngine.RunUnbalanced | src/Mcp/SPX/ProfileParser.php:119-160 | A profile whose start and end events differ in number always throws. |
| StatsEngine.RunEndsTooEarly | src/Mcp/SPX/ProfileParser.php:121-123 | A profile with a prefix that ends more calls than it starts always throws. |
| StatsEngine.RunUnderflow | src/Mcp/SPX/ProfileParser.php:121-123 | An end event reached with an empty stack makes the whole pass throw an underflow for its function, whatever follows. |
| StatsEngine.RunMismatch | src/Mcp/SPX/ProfileParser.php:125-128 | An end event for another function than the top frame's makes the whole pass throw a mismatch, whatever follows. |
| CallTrees.ReplayCall | src/Mcp/SPX/ProfileParser.php:109-154 | The events of one call, walked from any table and stack, go through. They leave the structurally folded table, and the caller's frame is charged with the call's inclusive cost. |
| CallTrees.ReplayForest | src/Mcp/SPX/ProfileParser.php:109-154 | The same holds for a sequence of sibling calls, which charge the caller with their summed inclusive cost. |
| CallTrees.WellNested | src/Mcp/SPX/ProfileParser.php:93-160 | A well-nested (LIFO) event sequence never throws and ends with an empty stack; the table is the structural fold of its calls. |
| CallTrees.ParsedTotals | src/Mcp/SPX/ProfileParser.php:109-154 | For a well-nested profile, the pass from an empty table gives each function: its number of calls, the summed inclusive cost of those calls, and their summed exclusive cost. |
| CallTrees.ParsedLeaf | src/Mcp/SPX/ProfileParser.php:131-146 | A function whose calls are all leaves gets inclusive cost equal to exclusive cost. |
| CallTrees.ParentChild | src/Mcp/SPX/ProfileParser.php:131-154 | P calling a single leaf C once: both are counted once; C has exclusive = inclusive; P has exclusive = inclusive(P) − inclusive(C). |
| CallTrees.ForestConservation | src/Mcp/SPX/ProfileParser.php:140-154 | Summed over every call, exclusive cost adds up to the top-level calls' inclusive cost. |
| CallTrees.CallConservation | src/Mcp/SPX/ProfileParser.php:140-154 | The exclusive costs of a call and everything below it add up to the call's inclusive cost. |
| CallTrees.ParsedForward | src/Mcp/SPX/ProfileParser.php:131-146 | When readings never go down within a call, every function's exclusive cost is at most its inclusive cost. |
| CallTrees.SelfCall | src/Mcp/SPX/ProfileParser.php:131-154 | A function calling itself once counts the inner call twice in its inclusive total, because no recursion correction is made. |
| CallTrees.MainCallsWork | src/Mcp/SPX/ProfileParser.php:93-160 | Worked example: main calls work from 1000 to 5000 µs and ends at 6000 µs. work gets 4000 µs inclusive and exclusive; main gets 6000 µs inclusive and 2000 µs exclusive. |
| CallTrees.ApplyCallTotals | src/Mcp/SPX/ProfileParser.php:109-154 | Folding one call adds that call's per-function totals to the table's. |
| CallTrees.BeginAt | src/Mcp/SPX/ProfileParser.php:118 | Counting a call of g adds one to g's count and changes nothing else. |
| CallTrees.CreditAt | src/Mcp/SPX/ProfileParser.php:135-146 | Crediting g adds to g's inclusive and exclusive totals and changes nothing else. |
| CallTrees.ChargeTwice | src/Mcp/SPX/ProfileParser.php:149-154 | Charging the parent frame twice is charging it with the sum. |
| Views.SortPermutes | src/Mcp/SPX/ProfileParser.php:169-213 | The `usort` model is a permutation of its input. |
| Views.SortSorted | src/Mcp/SPX/ProfileParser.php:169-213 | The `usort` model's result is in non-increasing order of the measure. |
| Views.SortStable | src/Mcp/SPX/ProfileParser.php:169-213 | The sort is stable: entries with equal keys keep their table order. |
| Views.InsertPermutes | src/Mcp/SPX/ProfileParser.php:172 | Inserting adds exactly the one entry. |
| Views.InsertSorted | src/Mcp/SPX/ProfileParser.php:172 | Inserting into a descending list keeps it descending. |
| Views.InsertStable | src/Mcp/SPX/ProfileParser.php:172 | Inserting places the new entry after every entry with the same key. |
| Views.Slice | src/Mcp/SPX/ProfileParser.php:173 | `array_slice($a, 0, $limit)` keeps a prefix, and that prefix followed by the rest is the input. A non-negative limit keeps min(limit, count) elements; a negative one drops min(−limit, count) elements from the end. |
| Views.TopN | src/Mcp/SPX/ProfileParser.php:169-213 | The result has min(limit, count) entries (slice length for a negative limit), drawn from the table, in non-increasing order. Every entry left out has a key at most that of every entry kept. |
| Views.TopNStable | src/Mcp/SPX/ProfileParser.php:169-213 | Among entries with equal keys, the result keeps the table's order. |
| Views.TopFacts | src/Mcp/SPX/ProfileParser.php:173 | A prefix of a descending list is descending, drawn from the list, and no entry outside it ranks above one inside. |
| Views.SlowestFunctions | src/Mcp/SPX/ProfileParser.php:169-174 | The top-N by exclusive wall time: count, order, membership and that no omitted entry is slower. |
| Views.MostCalledFunctions | src/Mcp/SPX/ProfileParser.php:182-187 | The same by call count. |
| Views.MemoryHogs | src/Mcp/SPX/ProfileParser.php:195-200 | The same by inclusive memory. |
| Views.CpuIntensiveFunctions | src/Mcp/SPX/ProfileParser.php:208-213 | The same by exclusive CPU time. |
| ProfileParsing.ProfileParser.DefaultTopN | src/Mcp/SPX/ProfileParser.php:169-213 | Called without a limit, each of the four lists keeps 50 entries, or the whole table when it has fewer. |
| ProfileParsing.ProfileParser.AllFunctionStats | src/Mcp/SPX/ProfileParser.php:220-223 | Returns the table held, which lists each key once. |
| ProfileParsing.ProfileParser.GetSummaryStats | src/Mcp/SPX/ProfileParser.php:230-251 | Returns `SummaryOf` the table. `total_functions` is the number of entries, and the two peaks are at least every entry's inclusive time and memory. |
| ProfileParsing.Summarize | src/Mcp/SPX/ProfileParser.php:232-250 | The loop sums call counts and takes running maxima from 0, giving `SummaryOf` the table. |
| Views.Peak | src/Mcp/SPX/ProfileParser.php:234-240 | The running maximum from 0 is non-negative, bounds every entry, and is 0 or some entry's value. |
| Views.SummaryBounds | src/Mcp/SPX/ProfileParser.php:237-241 | The summary's `total_time_us` and `peak_memory_bytes` are at least every entry's inclusive time and memory. |
| Views.RunTotal | src/Mcp/SPX/ProfileParser.php:109-118 | A pass that goes through raises the summed call count by exactly its number of start events. |
| Views.ParsedSummary | src/Mcp/SPX/ProfileParser.php:230-251 | After a pass from an empty table, `total_functions` is the number of distinct function indices in the events and `total_calls` is the number of start events. |
| Views.TotalCallsUpdate | src/Mcp/SPX/ProfileParser.php:238 | Replacing one entry changes the summed call count by the difference of the two counts. |
| StatsEngine.Step | src/Mcp/SPX/ProfileParser.php:94-155 | Definition of one iteration of the event loop; specified by StepTable, StepCounts, StepUnderflow, StepMismatch, StepHalts and StepEnd, and implemented by ApplyEvent. |
| StatsEngine.Replayed | src/Mcp/SPX/ProfileParser.php:93-156 | Definition of the event loop as a left fold of Step that stays halted after an exception; specified by ReplayedAppend, ReplayedTable, ReplayedCounts and ReplayedPrefix. |
| StatsEngine.Run | src/Mcp/SPX/ProfileParser.php:89-161 | Definition of calculateStats: the fold from an empty stack plus the final stack check; specified by RunTable, RunIncomplete, RunUnbalanced, RunEndsTooEarly, RunUnderflow, RunMismatch and WellNested, and implemented by CalculateStats. |
| StatsEngine.Touch | src/Mcp/SPX/ProfileParser.php:96-107 | Gives the event's function a zeroed entry at the end of the table unless it has one; the result always holds the function (StepTable, TouchValues). |
| StatsEngine.NameOf | src/Mcp/SPX/ProfileParser.php:98 | The name of a function index: its entry in the function table, or "Unknown" when out of range (the naming clause of StepTable). |
| StatsEngine.Elapsed | src/Mcp/SPX/ProfileParser.php:131-133 | End reading minus start reading per metric, a missing reading counting as 0 (StepEnd, ElapsedReadings). |
| StatsEngine.Begin | src/Mcp/SPX/ProfileParser.php:118 | Counts one call of a function (BeginAt, BeginTotal). |
| StatsEngine.Credit | src/Mcp/SPX/ProfileParser.php:135-146 | Adds an inclusive and an exclusive cost to one function's entry (CreditAt, CreditTotal). |
| StatsEngine.Charge | src/Mcp/SPX/ProfileParser.php:149-154 | Adds a cost to the children of the top frame and leaves the other frames as they were; ChargeTwice composes two charges. |
| ProfileData.Classify | src/Mcp/SPX/ProfileParser.php:37-48 | A raw line is trimmed and is then a header, an `empty()` line or content (ClassifyHeaders, ClassifyKept). |
| ProfileData.Read | src/Mcp/SPX/ProfileParser.php:35-55 | Definition of the reading loop over classified lines; specified by ReadAppend, SectionBody, BeforeFirstHeader and SplitSectionsKept. |
| ProfileData.SplitSections | src/Mcp/SPX/ProfileParser.php:35-55 | The names and event lines a whole file gives (UsualLayout), which ReadLines is proved to append. |
| ProfileData.DecodeEvent | src/Mcp/SPX/ProfileParser.php:64-84 | Definition of the record parseEvent builds; specified by DecodeEncoded, and implemented by ParseEvent with MetricsOf. |
| ProfileData.AssignMetrics | src/Mcp/SPX/ProfileParser.php:71-76 | The metric map of the first n value tokens; specified by AssignMetricsValues and AssignMetricsKeys. |
| Views.Insert | src/Mcp/SPX/ProfileParser.php:172 | One insertion step of the stable descending sort (InsertPermutes, InsertSorted, InsertStable). |
| Views.SortDescending | src/Mcp/SPX/ProfileParser.php:172 | `usort` with a descending comparator, which is stable (SortPermutes, SortSorted, SortStable). |
| Views.SummaryOf | src/Mcp/SPX/ProfileParser.php:230-251 | Definition of the summary; specified by SummaryBounds, ParsedSummary and Peak, and implemented by Summarize. |
| Views.TotalCalls | src/Mcp/SPX/ProfileParser.php:232-238 | The summed call counts in table order (TotalCallsUpdate, RunTotal, ParsedSummary). |
| PhpBuiltins.IntCast | src/Mcp/SPX/ProfileParser.php:67 | `(int)` of a string: optional leading whitespace and sign, then the digits (CastShow). |
| PhpBuiltins.FloatCast | src/Mcp/SPX/ProfileParser.php:75 | `(float)` of a string: the same, with an optional fraction (CastShow, CastShowAll). |
| PhpBuiltins.Explode | src/Mcp/SPX/ProfileParser.php:66 | `explode(' ', s)`, which gives at least one piece (ExplodeImplode, ImplodeExplode, ExplodePieces). |

## Left out

- File opening and gzip decompression (`gzopen`, `gzgets`, `gzeof`, `gzclose`) are foreign I/O. `Parse` takes the file's lines directly, or None when the file cannot be opened.
- Exception messages are left out. Each exception is a `ParseError` case carrying the indices the message names.
- Metric readings are exact reals, not IEEE doubles, so rounding is not modelled. The `/1000` and `/(1024*1024)` summary fields are exact real divisions of the microsecond and byte peaks.
- PhpBuiltins.IntCast and PhpBuiltins.FloatCast: exponent notation (`1e3`), hexadecimal and special float strings, and integer overflow saturation of `(int)` are not modelled. A decimal prefix with optional sign, leading whitespace and fraction is.
- `$parts[1]` on an event line with a single token is a PHP warning that reads as null. The model treats that line as an end event with no error, as the code does.
- ProfileParsing.ProfileParser.SlowestFunctions, MostCalledFunctions, MemoryHogs and CpuIntensiveFunctions carry no contract of their own. They return the `Views` function of the same name over the table held, and the properties are stated there. Their limit defaults to 50, as in PHP (`DefaultTopN`).
- The parser methods that the tool classes call but whose bodies are not in this class are not part of this model. These include the timeline, call tree, recursion, phase and I/O views.
- The MCP tool classes, the server, the console commands and the configuration are not part of this model.
- There is no correction for recursive calls (`CallTrees.SelfCall` shows its effect), and no `io_wait_time` statistic. The model follows the code.
