# Verified models of the Catch2 copy in `contrib/catch2`

The repository carries a copy of the Catch2 test framework. This project models its hardest parts in Dafny and
proves what they are for. `dafny verify dfyconfig.toml` checks everything.

**Sections and generators.** A test case is run again and again from the top until a tree of small state machines
says it is complete. `TestBody` describes a test case body (generators, then sections whose bodies have the same
shape) and enumerates its cycles by plain recursion. `TrackerTree`, `TrackerPaths` and `TrackerMachine` hold the
tracker tree, the current-tracker pointer and the run context as values; `TrackerCycle`, `TrackerTidy`,
`TrackerProgress`, `TrackerWait`, `TrackerLift` and `TrackerLiftRun` prove, level by level, that one cycle uses up
exactly one entry of the enumeration, or none if a generator waits in it; `TrackerRunTest` puts the cycles together.
`TrackerHeap` and `TrackerRunContext` are the same machine as objects that update their fields, with a ghost tree
that they are proved to keep up with; their `RunTest` is the loop of the source. `SectionPaths`, `ThrowingSections`,
`SectionFilters`, `SectionReports`, `SectionUnwinding` and `StuckGenerators` draw the consequences: coverage in
lexicographic order, coverage when sections throw, filters as pruning by depth, the reports of a cycle and what an
exception leaves of it, and exactly when the loop ends.

**Text.** `AnsiText` is the string that is iterated without its ANSI escapes, in both directions; `TextFlow` breaks
text into the lines of a column; `TextFlowColumn` is the line iterator over the former, proved to find the lines of
the latter.

**Generators.** `Generators` gives the elements of a generator expression, `GeneratorElements` says of each adapter
which element stands where; `GeneratorObjects` are the generator and adapter objects, proved to yield exactly those;
`GeneratedValues` says what a GENERATE gives over the cycles of a test case.

**Encoders and parsers.** `XmlEncode`, `XmlMarkup` and `XmlReading` (escaping of XML, and reading it back),
`TeamCityEscape`, `ReporterSpecs`, `CommandLine` (token stream and parser) and `CommandLineMatching` (which parser a
token goes to, and which command lines are accepted).

**Smaller pieces.** `IncludeExpansion` (the script that amalgamates the headers), `TestCaseTags` (tag views into a
buffer that must not move) and `RunTotals` (totals and exit code). `Wrappers` holds the `Option` datatype.

Lemmas named `...Means` say what the small functions of the models compute, with the characters and words written
out. The code is written with `hide` statements where a proof does not need a definition; they keep it quick to verify.

## Findings

The models keep what the code does. Where that is less than its documentation, comments or tests suggest, one lemma
gives an input and another one the exact condition on the input. Paths without a directory are those of
`contrib/catch2/extras/catch_amalgamated.cpp`.

- `GeneratorTracker`, 5692-5731: a generator directly above sections that the section filters all keep out, one of
  which is named by the filters of the enclosing section, waits for that section for ever, unless a section around it
  throws. Input: `StuckGenerators.StuckExample`; exactly when: `StuckGenerators.FinishesIff` for every way sections may
  throw, `StuckGenerators.FinishesIffStuckFree` when nothing throws.
- `handleUnfinishedSections`, 6160-6170: sections left by an exception are reported as ended outermost first, so the
  reports of such a cycle do not nest. Input: `SectionUnwinding.UnnestedExample`; exactly when:
  `SectionUnwinding.RunReports` (they nest if and only if the ids of the sections entered, down to the deepest one
  that throws, read the same in both directions, as one section alone does).
- `Column::const_iterator`, 7531-7636: a column with room for one character in its lines may iterate for ever, or
  output nothing at all. Inputs: `TextFlow.EndlessExample`, `TextFlow.DroppedExample`; exactly when:
  `TextFlow.IterationEnds`, `TextFlow.DroppedIff`.
- `RepeatGenerator`, `contrib/catch2/src/catch2/generators/catch_generators_adapters.hpp`, 115-145: every read of an
  element in the first pass saves it once more, and `generate` (`catch_generators.hpp`, 207-223, beside it) reads once
  in every cycle. So a repeated GENERATE in front of a body of several cycles repeats its elements as often as they
  were read. Input: `Generators.RepeatedRead`; exactly when: `Generators.RepeatedReadIff`. A filter (81-121) reads an
  element it keeps twice, to the same effect. Input: `Generators.FilteredRepeat`; exactly when:
  `Generators.FilteredRepeatIff`.
- `XmlEncode`, 7888-7894: "]]>" gets through at the very front of a text. Input: `XmlMarkup.ClosingCopied`; exactly
  when: `XmlMarkup.OutputClosesIff`.
- `XmlEncode`, 7943-7966: surrogates get through, which the comment at 7921 allows for, and so does one overlong
  form, that of 0x800 in four bytes. Inputs: `XmlEncode.NotUtf8ButCopied`; exactly when: `XmlEncode.AcceptedIff`, and
  for whole texts `XmlEncode.CopiedIffAccepted`.
- `RunContext::runTest`, 5831-5837: the run context's own totals have a failed test case without a failed assertion
  when a test that was expected to fail passed. Input: `RunTotals.UnexpectedPassExample`; exactly when:
  `RunTotals.ContextAgreesIff`.

## Model

| member | source | states |
|---|---|---|
| `TrackerRunContext.RunTest` | contrib/catch2/extras/catch_amalgamated.cpp:5761-5829 | Unless there is an enumerated cycle in which a generator waits and nothing throws, the do-while loop over the heap of trackers ends, after exactly the cycles the plain recursive enumeration of the body lists, each cycle going through that list entry's sections and generator values, in order, reporting the test case and the sections entered, in this order, as started, and the same ones as ended. |
| `TrackerRunTest.RunTestEnumerates` | contrib/catch2/extras/catch_amalgamated.cpp:5810-5829 | For every body, every section filters and every way sections may throw, without further condition: the cycles of the state machine are those of the enumeration, one after the other and with no internal error, and the run is done after the last; but from the first cycle in which a generator waits and nothing throws, it does that cycle for ever. |
| `TrackerRunTest.CycleStep` | contrib/catch2/extras/catch_amalgamated.cpp:6106-6145 | One cycle does the first entry of what the trackers have left to run and leaves no section active or unfinished; it uses the entry up and completes the test case exactly when it was the last one, but when a generator waits in it and nothing throws, the same entries are left. |
| `TrackerProgress.StepBody` | contrib/catch2/extras/catch_amalgamated.cpp:6931-6966 | Running the rest of a body below an open tracker and closing that tracker takes exactly one cycle off what is left below it, unless a generator waits in it and nothing inside throws. |
| `TrackerWait.StayBody` | contrib/catch2/extras/catch_amalgamated.cpp:5692-5731 | In that case the tracker, once closed, has the same cycles left as before. |
| `TrackerProgress.AdvanceGenerator` | contrib/catch2/extras/catch_amalgamated.cpp:5664-5732 | Closing a generator keeps its value while sections behind it are incomplete and otherwise moves to the next value with the whole rest of the body to run again; it is complete only after its last value. |
| `TrackerTidy.TidyBody` | contrib/catch2/extras/catch_amalgamated.cpp:6938-6973 | Every cycle, with or without exceptions, leaves the trackers below a tracker tidy: sections in program order with at most the first incomplete one started, generators in range. |
| `TrackerLiftRun.LiftBody` | contrib/catch2/extras/catch_amalgamated.cpp:5896-5951 | What one cycle does to the whole tree through the current-tracker pointer is what the tracker-local description says, and everything outside the current subtree stays as it was. |
| `TrackerLift.LiftClose` | contrib/catch2/extras/catch_amalgamated.cpp:6938-6966 | Closing a tracker first closes the generators still open inside it, and leaves the pointer at its parent. |
| `TrackerLiftRun.EnterSection` | contrib/catch2/extras/catch_amalgamated.cpp:5896-5920 | Entering a section below the current tracker reports it as started, finds or adds its tracker, which is then executing and the current one, and leaves its parent executing a child and everything else as it was. |
| `TrackerLiftRun.ExitSection` | contrib/catch2/extras/catch_amalgamated.cpp:5965-5996 | Leaving a section makes its parent the current tracker, takes it off the active sections and ends the cycle. Without an exception its tracker is closed in its place among its siblings and it is reported as ended; the section that throws has its tracker failed and its parent asked for another run, and those around it are closed; sections left by an exception are put aside to be reported later. |
| `TrackerLift.OpenChildStops` | contrib/catch2/extras/catch_amalgamated.cpp:6890-6897 | Marking ancestors as executing a child stops at the first that already is, so that below such trackers exactly one is changed. |
| `SectionPaths.EveryPathOnce` | contrib/catch2/extras/catch_amalgamated.cpp:5619-5732 | Without filters and exceptions every combination of generator values and leaf section is run exactly once, in lexicographic order with outer generators slowest, in as many cycles as the product of the sizes times the sum over the sections. |
| `SectionPaths.PathsSorted` | contrib/catch2/extras/catch_amalgamated.cpp:6931-6966 | The enumerated paths are in strictly increasing lexicographic order. |
| `SectionPaths.PathsComplete` | contrib/catch2/extras/catch_amalgamated.cpp:7010-7039 | The enumerated paths are exactly the complete ones: a value for every generator met, and one section at every level down to a body without sections. |
| `ThrowingSections.ThrowingSectionsRun` | contrib/catch2/extras/catch_amalgamated.cpp:5965-5996 | However sections throw, in any body with generators or without: once the test case is done, every complete path was taken if and only if no section threw before the last cycle of its own; and if so, the cycles that take one go through all of them in order, each once, and there is one more cycle each time the last section of a body fails. |
| `ThrowingSections.CoveredIff` | contrib/catch2/extras/catch_amalgamated.cpp:6967-6973 | The same for a body entered at any point of a cycle. |
| `ThrowingSections.LeavesPatient` | contrib/catch2/extras/catch_amalgamated.cpp:5987-5996 | Any subset of the sections that hold neither generators nor sections may throw: each has but one cycle of its own, so the condition holds. |
| `SectionUnwinding.CycleUnwinds` | contrib/catch2/extras/catch_amalgamated.cpp:5987-5996 | In one cycle from any tracker state, however sections throw, the sections an exception leaves are those from the outermost down to the deepest one that throws for what the cycle did, put aside innermost first; and the test case and the sections entered are reported as started. |
| `SectionUnwinding.RunReports` | contrib/catch2/extras/catch_amalgamated.cpp:6138-6170 | In cycle k of any run, whatever the filters, each section reported as started is reported as ended equally often; the reports nest like brackets if and only if the sections of entry k of the enumeration (or of the earlier one in which a generator waits for ever), from the outermost down to the deepest one that throws, read the same in both directions. |
| `SectionUnwinding.UnnestedExample` | contrib/catch2/extras/catch_amalgamated.cpp:6160-6170 | A section in a section of another name, the inner one throwing: the outer one is reported as ended first, so the reports do not nest. |
| `SectionReports.BodyReports` | contrib/catch2/extras/catch_amalgamated.cpp:5965-5996 | After a body, the sections reported as started and not ended are those from before plus those an exception has left, innermost last. |
| `SectionFilters.FilteredRunIsPrunedRun` | contrib/catch2/extras/catch_amalgamated.cpp:6983-7052 | Unless a generator waits for ever, a run with the filters f1 to fn enters exactly the paths of an unfiltered run of the body that holds the kept sections only, where a section at depth d is kept when d > n, when fd is empty, or when its trimmed name is one of fd to fn. |
| `SectionFilters.PruneByDepth` | contrib/catch2/extras/catch_amalgamated.cpp:7041-7052 | Passing the filters on from section to section, without their first one each time, keeps the sections that this rule keeps by their depth. |
| `TrackerTree.TrimMeans` | contrib/catch2/extras/catch_amalgamated.cpp:6979-6980 | The name that filters are compared with is the name without all whitespace at both ends. |
| `StuckGenerators.FinishesIff` | contrib/catch2/extras/catch_amalgamated.cpp:5692-5731 | For every body, every filters and every way sections may throw, the run ends if and only if every enumerated cycle that ends at a generator directly above sections that the filters all keep out, while one of them is named by the filters around the generator, is ended by an exception. |
| `StuckGenerators.FinishesIffStuckFree` | contrib/catch2/extras/catch_amalgamated.cpp:5692-5731 | The same told from body and filters alone: a run ends, however sections throw, if they leave no such generator; and when nothing throws, only then. |
| `StuckGenerators.StuckExample` | contrib/catch2/extras/catch_amalgamated.cpp:5701-5717 | A concrete test case and two section filters with which the run never ends, unless the section around the generator throws; then it takes two cycles. |
| `TrackerMachine.FindChild` | contrib/catch2/extras/catch_amalgamated.cpp:6866-6879 | The first child with the name and location, if there is one. |
| `TrackerHeap.ITracker.ShouldWaitForChild` | contrib/catch2/extras/catch_amalgamated.cpp:5674-5719 | The decision to wait is that of the tree the trackers stand for. |
| `TrackerHeap.ITracker.CountedNext` | contrib/catch2/extras/catch_amalgamated.cpp:5726-5728 | Moves the generator's element on, in the object and in the tree it stands for. |
| `TrackerHeap.ITracker.Close` | contrib/catch2/extras/catch_amalgamated.cpp:6938-6966 | Closes the trackers still open inside, then this one, as on the tree. |
| `TrackerHeap.ITracker.Fail` | contrib/catch2/extras/catch_amalgamated.cpp:6967-6973 | Fails the tracker, asks its parent for another run and completes the cycle. |
| `TrackerHeap.ITracker.OpenChild` | contrib/catch2/extras/catch_amalgamated.cpp:6890-6897 | Marks this tracker and those above as executing a child. |
| `TrackerHeap.ITracker.Open` | contrib/catch2/extras/catch_amalgamated.cpp:6931-6936 | Opens the tracker, makes it the current one and marks those above. |
| `TrackerHeap.TrackerContext.constructor` | contrib/catch2/extras/catch_amalgamated.cpp:6899-6908 | A new run has one section tracker as its root, with the initial filters. |
| `TrackerHeap.TrackerContext.FindChild` | contrib/catch2/extras/catch_amalgamated.cpp:6866-6879 | Finds the first child object with the name and location. |
| `TrackerHeap.TrackerContext.AcquireSection` | contrib/catch2/extras/catch_amalgamated.cpp:7010-7034 | Finds or adds the section below the current tracker and opens it unless the cycle is over or it is complete. |
| `TrackerHeap.TrackerContext.FindGenerator` | contrib/catch2/extras/catch_amalgamated.cpp:5619-5657 | Finds the generator tracker a GENERATE refers to: the current tracker or one of its children. |
| `TrackerHeap.TrackerContext.Generate` | contrib/catch2/extras/catch_amalgamated.cpp:5920-5951 | Reuses or creates the generator tracker, opens it and reads its element. |
| `TrackerHeap.TrackerContext.AddChild` | contrib/catch2/extras/catch_amalgamated.cpp:6862-6864 | Adds a tracker below another; all others stay where they are. |
| `TrackerHeap.TrackerContext.ClearChildren` | contrib/catch2/extras/catch_amalgamated.cpp:5729-5730 | Drops a tracker's children; all trackers elsewhere stay where they are. |
| `TrackerHeap.TrackerContext.StartCycle` | contrib/catch2/src/catch2/internal/catch_test_case_tracker.hpp:179-182 | A cycle starts at the root tracker, not completed. |
| `TrackerRunContext.RunContext.SectionStarted` | contrib/catch2/extras/catch_amalgamated.cpp:5896-5920 | On the heap of trackers, does what the state machine does when a section starts. |
| `TrackerRunContext.RunContext.SectionEnded` | contrib/catch2/extras/catch_amalgamated.cpp:5965-5985 | On the heap of trackers, does what the state machine does at the end of a section. |
| `TrackerRunContext.RunContext.SectionEndedEarly` | contrib/catch2/extras/catch_amalgamated.cpp:5987-5996 | On the heap of trackers, does what the state machine does for a section left by an exception. |
| `TrackerRunContext.RunContext.InvokeBody` | contrib/catch2/extras/catch_amalgamated.cpp:6147-6158 | Runs a body against the trackers exactly as the state machine does. |
| `TrackerRunContext.RunContext.HandleUnfinishedSections` | contrib/catch2/extras/catch_amalgamated.cpp:6160-6170 | Reports the sections an exception left, from the last one put aside to the first. |
| `TrackerRunContext.RunContext.RunCycle` | contrib/catch2/extras/catch_amalgamated.cpp:6106-6145 | One cycle of the test case, as the state machine's. |
| `TrackerRunContext.RunContext.InvokeSection` | contrib/catch2/src/catch2/internal/catch_section.cpp:43-52 | A section's destructor ends it normally, or early when an exception is unwinding. |
| `AnsiText.IteratorSteps` | contrib/catch2/extras/catch_amalgamated.cpp:7478-7520 | For every text without the sentinel: begin is the first position outside escapes, advancing goes to the next one, going back undoes it at every reachable position and runs off the front from the first, and the end is reached after as many steps as there are characters outside escapes. |
| `AnsiText.RestoresText` | contrib/catch2/extras/catch_amalgamated.cpp:7461-7476 | Putting the replaced characters back gives the text, if and only if the text holds no sentinel itself. |
| `AnsiText.EscapeMeans` | contrib/catch2/extras/catch_amalgamated.cpp:7424-7441 | Everything that is ESC, a bracket, any digits and semicolons, and the letter m is skipped as one escape. |
| `AnsiText.AnsiSkippingString.PreprocessString` | contrib/catch2/extras/catch_amalgamated.cpp:7417-7441 | Marks the end of every escape in place and counts the characters outside escapes. |
| `AnsiText.AnsiSkippingString.TryParseAnsiEscapes` | contrib/catch2/extras/catch_amalgamated.cpp:7478-7496 | Skips all escapes that follow each other. |
| `AnsiText.AnsiSkippingString.Unadvance` | contrib/catch2/extras/catch_amalgamated.cpp:7504-7520 | Goes back over the escapes in front to the character before. |
| `AnsiText.AnsiSkippingString.Substring` | contrib/catch2/extras/catch_amalgamated.cpp:7461-7476 | The text between two positions, escapes included and restored; from the first position on it includes what stands at the very front. |
| `TextFlow.ColumnFlow` | contrib/catch2/extras/catch_amalgamated.cpp:7603-7636 | Whenever iterating a column ends, its lines are in order, each is good, takes some text if it has room for two characters, and together they hold all the text but whitespace; only a column whose first line is empty yields nothing. |
| `TextFlow.LineIsGood` | contrib/catch2/extras/catch_amalgamated.cpp:7531-7580 | A line with its indentation and hyphen fits the width, holds a newline at its start only, and is broken at the last boundary within the room; a hyphen appears only where no boundary has text before it. LineMeans says what a boundary is. |
| `TextFlow.LineMeans` | contrib/catch2/extras/catch_amalgamated.cpp:7522-7580 | What every line is, with the characters written out: it ends at the first newline or the end of the text if the room, the width without the indentation, reaches that far; otherwise with the last visible character that is followed within the room by a place to break, which is the end of the text, the whitespace behind a word, one of [({<\| or the position behind one of ])}>.,:;*+-=&/\; and it is cut with a hyphen if and only if there is none. |
| `TextFlow.NextStartMeans` | contrib/catch2/extras/catch_amalgamated.cpp:7622-7636 | The next line starts behind one newline, or else at the next visible character. |
| `TextFlow.HelloWorld` | contrib/catch2/extras/catch_amalgamated.cpp:7522-7580 | In a column of width 8, "hello world" is broken between the words. |
| `TextFlow.LineProgress` | contrib/catch2/extras/catch_amalgamated.cpp:7531-7580 | When a line takes any text at all: if and only if it has room for two characters, starts with a newline, or its one character can be broken after. |
| `TextFlow.IterationEnds` | contrib/catch2/extras/catch_amalgamated.cpp:7622-7636 | For every width the class accepts, iteration ends if and only if later lines have room for two characters, or every visible character behind the first line can be broken after, or the first line is empty. |
| `TextFlow.DroppedIff` | contrib/catch2/extras/catch_amalgamated.cpp:7603-7614 | For every width the class accepts, the first line is empty, so that nothing is output, if and only if it has room for one character, which is no newline and cannot be broken after. |
| `TextFlow.EndlessExample` | contrib/catch2/extras/catch_amalgamated.cpp:7562-7579 | A column of width 5, indentation 4 and initial indentation 0 never comes to the end of "abcdef ghi". |
| `TextFlow.DroppedExample` | contrib/catch2/extras/catch_amalgamated.cpp:7611-7614 | A column of width 1 outputs nothing of "ab". |
| `TextFlow.Fill` | contrib/catch2/extras/catch_amalgamated.cpp:7544-7550 | Takes characters until the room is used, a newline comes or the text ends. |
| `TextFlow.BackToBoundary` | contrib/catch2/extras/catch_amalgamated.cpp:7562-7566 | The last boundary within the room. |
| `TextFlowColumn.ColumnIterator.CalcLength` | contrib/catch2/extras/catch_amalgamated.cpp:7531-7580 | The loops over the escape-skipping iterator find the line that the position arithmetic describes, and look at the text as far as the room or the next newline goes. |
| `TextFlowColumn.ColumnIterator.constructor` | contrib/catch2/extras/catch_amalgamated.cpp:7603-7614 | A new iterator stands at the first line, or at the end when that line is empty. |
| `TextFlowColumn.ColumnIterator.Increment` | contrib/catch2/extras/catch_amalgamated.cpp:7622-7636 | Goes to the next line, over one newline or over any other whitespace. |
| `TextFlowColumn.ColumnIterator.Current` | contrib/catch2/extras/catch_amalgamated.cpp:7589-7619 | The line's indentation, text with its escapes, and hyphen. |
| `TextFlowColumn.Write` | contrib/catch2/extras/catch_amalgamated.cpp:7644-7655 | Whenever iterating the column ends, writing it gives exactly its lines, separated by newlines, for texts with and without escapes. |
| `TextFlowColumn.PlainLines` | contrib/catch2/extras/catch_amalgamated.cpp:7461-7476 | Without escapes a line is the text from its start to its end. |
| `TextFlowColumn.PlainRendered` | contrib/catch2/extras/catch_amalgamated.cpp:7589-7619 | Without escapes a line is written as so many spaces as its indentation, its text, and a hyphen if it has one. |
| `TextFlowColumn.OutputJoins` | contrib/catch2/extras/catch_amalgamated.cpp:7644-7655 | Lines written below others are separated from them by one newline. |
| `TextFlowColumn.HelloWorldWritten` | contrib/catch2/extras/catch_amalgamated.cpp:7644-7655 | In a column of width 8, "hello world" is written as "hello", a newline and "world". |
| `GeneratorObjects.Generate` | contrib/catch2/src/catch2/generators/catch_generators.hpp:207-223 | Whatever adapters are composed, and in however many cycles each element is read: the generator built yields exactly the elements of its expression for a consumer that reads them so often, each of them in all its cycles; building fails exactly when a filter keeps nothing or a chunk cannot be filled; the elements have the plain meaning when no generator is repeated but below a map or a chunk, or when each is read in one cycle and no filter reads a repeated generator. |
| `GeneratorObjects.Build` | contrib/catch2/src/catch2/generators/catch_generators_adapters.hpp:21-228 | Builds the object for any expression so that it has all the expression's elements left, whatever the number of times each element will be read. |
| `Generators.ElementsArePlain` | contrib/catch2/src/catch2/generators/catch_generators_adapters.hpp:21-228 | Take is a prefix, filter keeps matching elements, map is pointwise, repeat gives copies, chunk gives full blocks and a list of generators their concatenation, as long as each element is read once and no filter reads a repeated generator, or no generator is repeated but below a map or a chunk. |
| `Generators.RepeatedReadIff` | contrib/catch2/src/catch2/generators/catch_generators_adapters.hpp:115-145 | For every number of repetitions, generator that repeats nothing (but below a map or a chunk), and number of reads of each element: the repeated generator gives the elements again and again if and only if it is repeated once or each of its elements is read once. |
| `Generators.RepeatedRead` | contrib/catch2/src/catch2/generators/catch_generators_adapters.hpp:115-145 | An example: two elements repeated twice and read in two cycles each come as a, b, a, a, b, b. |
| `GeneratorElements.TakeElements` | contrib/catch2/src/catch2/generators/catch_generators_adapters.hpp:35-48 | Take gives the first elements of the generator below, as many as its target or as there are. |
| `GeneratorElements.FilterElements` | contrib/catch2/src/catch2/generators/catch_generators_adapters.hpp:81-121 | A filter gives the elements its predicate holds of, each at the number of kept ones before it, and no others; it reads a kept element once more than its consumer does. |
| `GeneratorElements.MapElements` | contrib/catch2/src/catch2/generators/catch_generators_adapters.hpp:171-177 | Element k of a map is its function of element k of the generator below. |
| `GeneratorElements.RepeatElements` | contrib/catch2/src/catch2/generators/catch_generators_adapters.hpp:115-145 | A repeated generator gives its elements once and then, in every further pass, each of them as often as it was read: copy j of element i in each pass has its place, and there are no others. |
| `GeneratorElements.ConcatElements` | contrib/catch2/src/catch2/generators/catch_generators.hpp:150-170 | Element k of generator i of a list stands behind all elements of those before it, and there are no others. |
| `GeneratorElements.ChunkElements` | contrib/catch2/src/catch2/generators/catch_generators_adapters.hpp:201-227 | Chunk k holds the elements from k * size on; only an incomplete last one is left out. |
| `GeneratorElements.SourceElements` | contrib/catch2/src/catch2/generators/catch_generators_range.hpp:47-50 | A single value, given values, and a range give what they are named for. |
| `GeneratedValues.GeneratedInOrder` | contrib/catch2/src/catch2/generators/catch_generators.hpp:207-223 | Without filters and exceptions, a GENERATE in front of a body has as many elements as its expression yields when each is read in as many cycles as that body has; the values read over the cycles of the test case are those elements, in order, each in that many cycles. |
| `Generators.FilteredRepeatIff` | contrib/catch2/src/catch2/generators/catch_generators_adapters.hpp:81-121 | For every filter, number of repetitions and generator that no filter reads repeatedly: a filter over the repeated generator gives the kept elements as often as they are repeated if and only if it is repeated once or nothing is kept. |
| `Generators.FilteredRepeat` | contrib/catch2/src/catch2/generators/catch_generators_adapters.hpp:81-121 | An example: a filter over a repeated generator reads kept elements twice, so that the repetitions give each of them twice. |
| `Generators.RangeElements` | contrib/catch2/src/catch2/generators/catch_generators_range.hpp:47-50 | Element k of a range is start + k * step, strictly before the end, and no more. |
| `Generators.BlockAt` | contrib/catch2/src/catch2/generators/catch_generators_adapters.hpp:201-227 | Chunk k holds the size elements from k * size on; only an incomplete last block is dropped. |
| `GeneratorObjects.Generator.NextTake` | contrib/catch2/src/catch2/generators/catch_generators_adapters.hpp:35-48 | Moves to the next element of the prefix, or ends after the target or with the generator below. |
| `GeneratorObjects.Generator.NextFilter` | contrib/catch2/src/catch2/generators/catch_generators_adapters.hpp:81-88 | Moves to the next element kept, or ends. |
| `GeneratorObjects.Generator.NextRepeat` | contrib/catch2/src/catch2/generators/catch_generators_adapters.hpp:123-145 | Moves on in the generator below, or within the saved elements, pass after pass. |
| `GeneratorObjects.Generator.NextMap` | contrib/catch2/src/catch2/generators/catch_generators_adapters.hpp:171-177 | Moves on and saves the next mapped element. |
| `GeneratorObjects.Generator.NextChunk` | contrib/catch2/src/catch2/generators/catch_generators_adapters.hpp:218-227 | Moves to the next full chunk, or ends. |
| `GeneratorObjects.Generator.NextConcat` | contrib/catch2/src/catch2/generators/catch_generators.hpp:160-169 | Moves on in the current generator or to the first element of the next one. |
| `GeneratorObjects.Generator.Next` | contrib/catch2/src/catch2/generators/catch_generators_range.hpp:47-50 | For every kind of generator: takes the current element off what is left, and tells whether anything is left. |
| `GeneratorObjects.Generator.GetRepeat` | contrib/catch2/src/catch2/generators/catch_generators_adapters.hpp:115-121 | Reads the current element and saves it while the generator below is still read. |
| `GeneratorObjects.GeneratorWrapper.CountedNext` | contrib/catch2/src/catch2/interfaces/catch_interfaces_generatortracker.cpp:15-22 | Moves on; the counter is the position of the current element, and the saved text is dropped with it. |
| `GeneratorObjects.GeneratorWrapper.CurrentElementAsString` | contrib/catch2/src/catch2/interfaces/catch_interfaces_generatortracker.cpp:24-29 | The text of the current element, whether it was saved before or not. |
| `GeneratorObjects.Collect` | contrib/catch2/src/catch2/interfaces/catch_interfaces_generatortracker.cpp:15-22 | Reading the current element once in each of its cycles, and then moving on, takes all of them in order, and the counter then stands at the last one. |
| `XmlEncode.EncodeTo` | contrib/catch2/extras/catch_amalgamated.cpp:7878-7970 | Writes what the byte-by-byte description of the escaping says. |
| `XmlReading.EncodesByte` | contrib/catch2/extras/catch_amalgamated.cpp:7883-7909 | What is written for each ASCII byte: the entity of the four that have one, in its conditions; a code that reads back as the byte for 0x00 to 0x08, 0x0E to 0x1F and 0x7F; and the byte itself for all others. |
| `XmlReading.OutputAllowed` | contrib/catch2/extras/catch_amalgamated.cpp:7904-7909 | Whatever the input, no byte from 0x00 to 0x08 or from 0x0E to 0x1F and no 0x7F is written. |
| `XmlReading.ReadsBackIff` | contrib/catch2/extras/catch_amalgamated.cpp:7860-7970 | A reader that expands the entities, and \x with two digits 0-9A-F as the byte with that code, gives the text back if and only if the text itself holds no \x with two such digits. |
| `XmlReading.ReadsAllBack` | contrib/catch2/extras/catch_amalgamated.cpp:7860-7970 | So it gives back every text without a backslash, whatever its bytes. |
| `XmlEncode.CopySequence` | contrib/catch2/extras/catch_amalgamated.cpp:7919-7966 | A multi-byte sequence is copied exactly when it is complete, has continuation bytes, and its value is below 0x110000 and in the shortest form, 0x800 in four bytes being the exception. |
| `XmlEncode.CopiedIffAccepted` | contrib/catch2/extras/catch_amalgamated.cpp:7911-7967 | A text is written with no byte above 0x7F escaped if and only if it is a sequence of characters of section 3 of RFC 3629, surrogates in three bytes, and the overlong form F0 80 A0 80. |
| `XmlEncode.AcceptedIff` | contrib/catch2/extras/catch_amalgamated.cpp:7943-7966 | A multi-byte sequence is copied if and only if it is a character of section 3 of RFC 3629, a surrogate, or that overlong form. |
| `XmlEncode.OutputAccepted` | contrib/catch2/extras/catch_amalgamated.cpp:7911-7967 | For arbitrary bytes, every byte above 0x7F that is written lies in an accepted sequence. |
| `XmlEncode.NotUtf8ButCopied` | contrib/catch2/extras/catch_amalgamated.cpp:7943-7966 | F0 80 A0 80, an overlong form of 0x800, and ED A0 80, a surrogate, are copied though they are not valid UTF-8. |
| `XmlMarkup.OutputNoMarkup` | contrib/catch2/extras/catch_amalgamated.cpp:7884-7902 | No raw '<' is written, every '&' starts one of the four entities, and in attributes no raw '"' is written. |
| `XmlMarkup.OutputClosesIff` | contrib/catch2/extras/catch_amalgamated.cpp:7888-7894 | "]]>" is written if and only if the text starts with it. |
| `XmlMarkup.ClosingCopied` | contrib/catch2/extras/catch_amalgamated.cpp:7888-7894 | "]]>" alone is written as it is. |
| `XmlMarkup.ReadsBack` | contrib/catch2/extras/catch_amalgamated.cpp:7878-7970 | Expanding the entities gives the text back if and only if no byte of it was hex-escaped. |
| `TeamCityEscape.ReplaceInPlace` | contrib/catch2/extras/catch_amalgamated.cpp:6510-6534 | Replaces every occurrence from left to right, and tells whether there was one. |
| `TeamCityEscape.PassesAreOne` | contrib/catch2/extras/catch_amalgamated.cpp:11356-11365 | The six successive replacements equal one substitution character by character. |
| `TeamCityEscape.Escape` | contrib/catch2/extras/catch_amalgamated.cpp:11356-11365 | The result is that substitution, and reading it from left to right gives the string back. |
| `TeamCityEscape.UnescapeEscaped` | contrib/catch2/extras/catch_amalgamated.cpp:11356-11365 | The left-to-right reading inverts the escaping of every string. |
| `TeamCityEscape.EscapedIsClean` | contrib/catch2/extras/catch_amalgamated.cpp:11356-11365 | Outside an escape, which is a bar and one of six characters, no bar, quote, bracket or end of line is left. |
| `TeamCityEscape.EscapedMeans` | contrib/catch2/extras/catch_amalgamated.cpp:11356-11365 | Bar, quote and brackets get a bar before them, the two ends of line become a bar and a letter, and every other character stays, wherever it stands. |
| `ReporterSpecs.SplitReporterSpec` | contrib/catch2/extras/catch_amalgamated.cpp:5404-5451 | The parts between the separators, scanned from left to right. |
| `ReporterSpecs.JoinSplit` | contrib/catch2/extras/catch_amalgamated.cpp:5404-5451 | Joining the parts gives the specification back, and no part holds a separator. |
| `ReporterSpecs.SplitJoin` | contrib/catch2/extras/catch_amalgamated.cpp:5404-5451 | Splitting a join gives the parts back if and only if no part holds a separator and none but the last ends with a colon. |
| `ReporterSpecs.ParseReporterSpec` | contrib/catch2/extras/catch_amalgamated.cpp:5476-5531 | Reads the options part by part; a malformed part, an unknown key or a key given twice fails. |
| `ReporterSpecs.AnyOrder` | contrib/catch2/extras/catch_amalgamated.cpp:5485-5525 | The parsed fields, and whether parsing fails, do not depend on the order of the parts. |
| `ReporterSpecs.FieldsOfParts` | contrib/catch2/extras/catch_amalgamated.cpp:5485-5531 | Every part of an accepted specification is found in its fields, and the fields hold nothing else. |
| `ReporterSpecs.AcceptedIff` | contrib/catch2/extras/catch_amalgamated.cpp:5485-5525 | The parts behind the name are accepted if and only if each is a key without '=', an '=' and a value, the key being "out", "colour-mode" with one of its four words as value, or of two characters and more with an X first, no value is empty, and no key comes twice. |
| `ReporterSpecs.AcceptedFields` | contrib/catch2/extras/catch_amalgamated.cpp:5453-5467 | The fields then hold these values, the colour that each word stands for, and nothing of any other key. |
| `ReporterSpecs.OutputFile` | contrib/catch2/extras/catch_amalgamated.cpp:5504-5509 | For instance "xml::out=report.xml", with any name and file without a colon, is split into the name and one part, which gives the output file and nothing else. |
| `ReporterSpecs.ParsesBack` | contrib/catch2/extras/catch_amalgamated.cpp:5476-5531 | A specification joined from separable parts in any order is split into them again and parses to the same fields. |
| `IncludeExpansion.GenerateHeader` | contrib/catch2/tools/scripts/generateAmalgamatedFiles.py:107-112 | Expansion ends on every include graph and succeeds if and only if every reachable header exists; the headers visited are exactly the reachable ones, each but the user configuration is expanded once, the count is theirs and the start's, and the text lines of the start and of each header expanded are written, in the order of an include that is guarded: every header where it is included first. |
| `IncludeExpansion.StartTwice` | contrib/catch2/tools/scripts/generateAmalgamatedFiles.py:86-112 | The lines of the start are written a second time if and only if it is reachable from itself, since it is not among the headers seen when it starts. |
| `IncludeExpansion.Amalgamation.ConcatenateFile` | contrib/catch2/tools/scripts/generateAmalgamatedFiles.py:63-104 | Appends one file: its lines, in order, each header where it is included first; the headers it adds are reachable from it, closed under includes and counted. |
| `IncludeExpansion.ReachableIsVisited` | contrib/catch2/tools/scripts/generateAmalgamatedFiles.py:86-102 | What is reachable from a set closed under includes is in it. |
| `TestCaseTags.MakeTestCaseInfo` | contrib/catch2/src/catch2/catch_test_case_info.cpp:124-200 | For every tag string: fails with the error of its first defect, or builds the normalized tags and properties, with room left for the tag of the file; the views read these tags in increasing order without regard to case, one of each that are the same. |
| `TestCaseTags.TestCaseInfo.SortTags` | contrib/catch2/src/catch2/catch_test_case_info.cpp:196-199 | Sorting and dropping duplicates leaves views of the same buffer that read the tags in strictly increasing order, none added and none lost but for case. |
| `TestCaseTags.TestCaseInfo.InternalAppendTag` | contrib/catch2/src/catch2/catch_test_case_info.cpp:238-245 | Adding a tag for which there is room moves no buffer, so all views still read their tags. |
| `TestCaseTags.TestCaseInfo.AddFilenameTag` | contrib/catch2/src/catch2/catch_test_case_info.cpp:215-219 | Adds the tag of the file without moving the buffer. |
| `TestCaseTags.TestCaseInfo.Append` | contrib/catch2/src/catch2/catch_test_case_info.cpp:238-245 | The buffer moves exactly when the text does not fit. |
| `TestCaseTags.ExtractFilenamePart` | contrib/catch2/src/catch2/catch_test_case_info.cpp:83-98 | The part of the path between the last slash and the last dot. |
| `TestCaseTags.PropertiesMean` | contrib/catch2/src/catch2/catch_test_case_info.cpp:50-65 | A test case has each property if and only if it has its tag, of "!throws", "!shouldfail", "!mayfail", "!nonportable" and "!benchmark"; it is hidden if and only if it has the last one or a tag that begins with a dot. |
| `TestCaseTags.TagsReadBack` | contrib/catch2/src/catch2/catch_test_case_info.cpp:143-187 | Tags in brackets are read back when each begins with a letter, a digit or a dot or is one of the five words above; otherwise the first one that does not, empty or reserved, is why the test case is refused. |
| `TestCaseTags.KeptMean` | contrib/catch2/src/catch2/catch_test_case_info.cpp:175-194 | Every tag is kept in its place, without the dot before another text, and a hidden test case has the tag "." in the end. |
| `TestCaseTags.LessMeans` | contrib/catch2/extras/catch_amalgamated.cpp:2603-2610 | Of two tags the first is less when it ends first, or at the first place where they differ but for case. |
| `TestCaseTags.KeyMeans` | contrib/catch2/extras/catch_amalgamated.cpp:6486-6488 | For this, characters are the same if they are equal or the two cases of one of the 26 letters; lower-case letters and other characters up to 0x7F are in the order of their codes, behind all bytes above. |
| `TestCaseTags.FilenameMeans` | contrib/catch2/src/catch2/catch_test_case_info.cpp:83-98 | Of a directory, a name and an extension that holds no dot, the part is the name. |
| `CommandLine.Parse` | contrib/catch2/extras/catch_amalgamated.cpp:3005-3052 | Parsing ends for every command line and set of parsers, with the outcome of handing the tokens to the first parser with room that takes them. |
| `CommandLine.ParseCalls` | contrib/catch2/extras/catch_amalgamated.cpp:3005-3052 | Unless parsing fails, the calls made use the tokens once each and in order from the front, by a parser they match, after all earlier ones, and none of them is refused; no parser that takes one value matches twice; all tokens are used, or an option asked to stop and was the last. |
| `CommandLineMatching.MatchNames` | contrib/catch2/extras/catch_amalgamated.cpp:2638-2650 | A token matches an option if and only if one of the option's names is the token, which then begins with a dash, or a dash and the token. |
| `CommandLineMatching.NextRound` | contrib/catch2/extras/catch_amalgamated.cpp:3005-3052 | Of the parsers that may still be set and that the next token is for, the first gets it; the token is unrecognised if there is none. |
| `CommandLineMatching.DoneIff` | contrib/catch2/extras/catch_amalgamated.cpp:3005-3052 | A command line is accepted with certain calls if and only if these can be made one after the other, each by the first parser that the token then next is for, with its value behind it and not refused, up to the last token. |
| `CommandLineMatching.UnrecognisedIff` | contrib/catch2/extras/catch_amalgamated.cpp:3005-3052 | Parsing fails with an unrecognised token if and only if calls made in this way lead up to that token and no parser that may still be set is for it. |
| `CommandLineMatching.FlagsAccepted` | contrib/catch2/extras/catch_amalgamated.cpp:2690-2705 | A dash and several characters, each of which names the flag of a parser of its own and is accepted there, set all these flags, in order. |
| `CommandLineMatching.ValueAccepted` | contrib/catch2/extras/catch_amalgamated.cpp:2833-2875 | An option with a value, as two arguments or as one with a space, colon or equals sign between them, sets that value when it is accepted. |
| `CommandLine.TokenStream.Advance` | contrib/catch2/extras/catch_amalgamated.cpp:2716-2725 | Walking the stream takes off the tokens of all arguments one after the other, empty arguments having none. |
| `CommandLine.TokenStream.LoadBuffer` | contrib/catch2/extras/catch_amalgamated.cpp:2669-2706 | Skips empty arguments and cuts the next one into tokens. |
| `CommandLine.Tokenize` | contrib/catch2/extras/catch_amalgamated.cpp:2677-2705 | An option with its value after a separator, combined short options, a single option, or an argument. |
| `CommandLine.TokensKeepText` | contrib/catch2/extras/catch_amalgamated.cpp:2677-2705 | An argument is cut without losing text: it is one token, or an option and its value around the first separator, or a dash and one option for each character. |
| `CommandLine.ParseOne` | contrib/catch2/extras/catch_amalgamated.cpp:2776-2875 | One option or argument looks at the tokens: no match leaves them, a match moves past those used. |
| `RunTotals.Execute` | contrib/catch2/src/catch2/catch_session.cpp:113-130 | A front part of the tests runs, each until its last cycle or the one in which the run is aborted, and the others are skipped because it was; the totals are the sum of the totals of those tests after those cycles; the run context counts the same test cases but only the assertions made. |
| `RunTotals.RunFailsIff` | contrib/catch2/src/catch2/catch_session.cpp:113-130 | Of any tests: a test case of the run fails if and only if the run may start and an assertion of some test fails or some test passes unexpectedly; each test that ran is counted once. |
| `RunTotals.RunSkipsIff` | contrib/catch2/src/catch2/catch_session.cpp:113-130 | No test runs if and only if there is none or none may start; all that run are skipped if and only if all tests skip. |
| `RunTotals.ContextAgreesIff` | contrib/catch2/extras/catch_amalgamated.cpp:5831-5845 | The run context's own totals have a failed test case exactly when they have a failed assertion, if and only if no test may start, or an assertion fails in some test, or no test passes unexpectedly. |
| `RunTotals.UnexpectedPassExample` | contrib/catch2/extras/catch_amalgamated.cpp:5831-5837 | With one test that is expected to fail and passes, the run context counts a failed test case and no failed assertion. |
| `RunTotals.RunContext.RunTest` | contrib/catch2/extras/catch_amalgamated.cpp:5810-5848 | The totals of one test case, cycle after cycle until it is done or the run is aborted. |
| `RunTotals.DeltaOfTest` | contrib/catch2/src/catch2/catch_totals.cpp:52-63 | The difference between two totals counts one test case, by the worst of its assertions. |
| `RunTotals.TestCaseCounts` | contrib/catch2/src/catch2/catch_totals.cpp:52-63 | After any number of cycles, a test case counts as failed if an assertion failed in one of them, else as failed but ok if one did that, else as skipped if one was, and else as passed, or as failed if it was expected to fail. |
| `RunTotals.SumCounts` | contrib/catch2/src/catch2/catch_totals.cpp:21-27 | Each counter is the sum of those of the cycles. |
| `RunTotals.TestTotals` | contrib/catch2/extras/catch_amalgamated.cpp:5831-5836 | The totals of one test case count one test case, and it failed exactly when an assertion did, also when it was expected to fail and passed. |
| `RunTotals.RunInternal` | contrib/catch2/src/catch2/catch_session.cpp:322-357 | The exit code of a session, told from its tests and test specs: failure exactly when an assertion of some test fails or some test passes unexpectedly, the codes for nothing run and for all skipped exactly then, unless other codes come first. |
| `RunTotals.ExitCodeMeaning` | contrib/catch2/src/catch2/catch_session.cpp:339-357 | What each exit code made of the totals of a run says about the tests of that run. |

## Left out

- Test bodies outside the modelled shape: a GENERATE after a SECTION of the same body, a section or generator entered twice in one cycle by a loop, exceptions that the body catches itself, and exceptions thrown between two sections; a section throws at the end of its own body, decided by its depth and what the cycle did so far.
- TrackerRunContext.RunTest: requires the exact condition under which the source's loop ends (StuckGenerators.FinishesIff); Turn, its loop body, is stated for every body. abortAfter is never reached in this model (RunTotals models aborting).
- TestBody.Gen: a GENERATE is given by the number of its elements. For an expression `e` in front of `rest` that is `|Elements(e, cycles)|`, where `cycles` says in how many cycles of `rest` each element is read; GeneratedValues proves this where filters and exceptions do not change that number.
- TrackerHeap and TrackerRunContext: virtual functions of section and generator trackers are told apart by a kind field; a generator is its size and the index of its element; internal errors and assertions are recorded in a flag that is proved to stay clear.
- Trackers are dropped by clearing a generator's children; releasing their memory is not modelled.
- Output redirection, timing, messages, benchmarks, assertions inside sections and the missing-assertion warning of the run context.
- TextFlowColumn.Write: requires the exact condition under which the source's loop ends (TextFlow.Ends); the text must not hold the byte 0xFF, which the class reserves.
- TextFlowColumn.ColumnIterator.Current: requires what the source asserts, that the text was looked at up to the line or beyond.
- ANSI escapes that stand behind whitespace skipped between two lines are not output by the source either; the model keeps that and states no conservation of escapes.
- Columns side by side (`Columns`), and the spacer.
- Generators.ElementsArePlain: its condition can be told from the expression but is not necessary, since an outer take may hide the difference; for a repeated generator, and a filter over one, RepeatedReadIff and FilteredRepeatIff give exact conditions.
- Generators.Elements: chunks of size 0, which yield empty chunks for ever, the overflow of machine integers and floating point in ranges, random generators, and the iterator generator, which behaves like a list of fixed values.
- GeneratorObjects.Generator.Next: is asked only while an element is left, as the generator tracker does.
- GeneratorObjects: the generator classes are one class with a kind, and the fields of the common base class are held by the wrapper.
- XmlEncode: indentation and the writer of elements and attributes around the encoded text.
- TeamCityEscape.ReplaceInPlace: requires a string to look for that is not empty, with which the source's loop would not end; strings are values, so it returns the new one.
- CommandLine.ParseCalls: what setting a value does is a parameter; the executable's name, help output, conversions from text and required options are not modelled, and '/' is no option prefix (as outside Windows).
- IncludeExpansion: files are lists of lines already told apart by kind; the regular expression, the file header and the list of files of the cpp amalgamation are not modelled. What a failed expansion has written is not stated.
- TestCaseTags.MakeTestCaseInfo: which spelling is kept of tags that are the same but for case is left open, as `std::sort` does; names, the registry and the comparison of test cases are not modelled, and bytes above 0x7F compare as signed characters.
- RunTotals: counters are unbounded; the assertions of each cycle are given; a fatal signal, listings, sharding and invalid command lines end the session elsewhere.
- The repository's own option store and command dispatch, TestSpec parsing, reporters, benchmark statistics, sharding and random distributions.
