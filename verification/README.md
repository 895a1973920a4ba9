# Ctalk: emitter, cache files, text editor and text layout

A Dafny model of four parts of the Ctalk compiler and its libraries, with proofs of what they promise.

**The cache emitter** (`src/premethod.c`, `src/preclass.c`). Outputting a cached method loads the classes it
constructs, outputs the methods it calls or has a fixup for, then outputs the method itself and defines the variables
of its `.init` file; loading a class outputs the class, defines its variables, and outputs all its cached methods,
which may construct classes again. A third table keeps a variable from being defined twice. `DefinedVars` says which
variables are defined given that table, `EmitTrace` what sound output is, `EmitState` what must hold of the three
tables between calls, and `Emitter` has the mutually recursive walk. Proved for every request whose needed methods have
no cycle of calls, while class references may be cyclic: the walk terminates; no method, class or variable is output
twice; a method whose source has a method call (the text `__ctalk_method`) comes after every method that is read from
its calls and fixups, and after the definition of every class that is read from its constructor calls, even one that is
still being loaded; a class or a method is followed, in the order of its file, by exactly those of its variables that
were not defined before; and after any run of outermost calls, what has been output is the least set closed under
"needs" that includes what was asked for, so it does not depend on the order of the calls.

The premises are exact. Calls on methods and classes are served if what they need has no cycle of calls (`Serve`); if
they return, it has none, neither in a method that was asked for nor in a member of a class on the way
(`ReturnedCalls`, over the finite trees of activations; `CallGraph` has cycles and ranks). Of a source without a
method call the walk reads neither constructors nor markers: `SourcesWithoutCalls` says what that leaves out, and gives
a method whose only statement declares a local object as an example. `WrittenSource` has sources with any number of
calls as the compiler writes them. From such a source the searches read the class of every constructor call; of a
method call they read the selector if and only if the receiver has no `,`, or has the same selector behind that.
`EmittedCalls` says what this means for the output.

**The cache files** (same sources). `ClassRecords` and `ClassRoundTrip` are the ".class" files, `InitRecords`,
`InitRoundTrip`, `InitCache`, `InitQuiet` and `InitFiles` the ".init" files, `RegisterInit` and `MethodDefinitions`
the definitions made from the latter, `MethodSource` and `FixupMarkers` the method sources with their fixup markers.
The printers and parsers undo each other; where they do not, an if-and-only-if says when.

**The text editor** (`lib/edittext.c`). `LineSplitter` defines where a text breaks one line at a time, `LineRules`
says by which rules, and that they leave no choice, `LineRecords` has the loop of `split_text` with its backward jumps
and the linked list it builds, `ReflowLocality` says how far back an edit can disturb the lines, `LineCursor` where a
point stands among them. `EditModel` gives each operation on a text and a point, with runs and undo, `EditLaws` what
the keys type and erase and what the view shows; `Editor` has the operations on the two byte buffers.

**Text boxes** (`lib/textcx.c`). `WrapLayout` is the greedy placement of boxes in a pane, `WrapPlaces` says exactly
where each box goes and how wide it is, `TextBoxes` what compression does to a list of boxes, `BoxGeometry` where those
it leaves stand, `BoxList` and `WrapText` the loops over the doubly linked list.

Where the code differs from what it seems to be for, the model follows the code:

- The classes that a source constructs, and its fixup markers, are only looked at if it has a method call. Without
  one, no class is loaded because of it, no method is output because of its markers, and it is output with them. A
  method that only declares a local object is like that: its calls are `__ctalkCreateArgA` and
  `__ctalk_primitive_method`.
- The selector of a method call is looked for behind the first `,`, which is in the receiver if that is a literal with
  one: of a message to `"a,b"`, `b\""` is read for the selector.
- The `.class` parser ends an initial value at the first newline, the `.init` parser at the first `:` or newline, so a
  value with one of those is not recovered.
- `register_init` takes a method for an instance method if its selector has `_instance_` in it anywhere, and its
  parameters if it has `instance`. Selectors are made of the names of the class and of the function with the mark of
  the method's kind between them, so a class method can have both marks: `Foo_class_make_instance_of_0`.
- A class is not always followed by its variables: those that an earlier method of the class has defined are left out.
  The key of a variable is its class, kind and name with `_` between them, so variables of different classes can have
  the same key when class names have a `_`; the second one is then never defined.
- Previous-line stays on its own line when the line above was soft-broken and is no longer than the column.
- Next-line passes over the line below when that line was soft-broken and is no longer than the column. When it
  scrolls, it stores a line number in the point.
- The delete key erases backwards at the end of the text.
- The second compression pass combines two words with a blank behind each if they have the same length; its last test
  looks for the blank of the second one at the place of the first one's.
- Compressing a laid-out list can put two lines into one box, wider than the pane, because the second pass does not
  look at the line breaks.

A `hide` statement in a proof keeps the named definitions from the solver; it assumes nothing.

## Model

| member | source | states |
|---|---|---|
| Emitter.CacheEmitter.OutputPreMethod | src/premethod.c:614-727 | keeps the invariant of the three tables and the output, adds nothing outside any closed scope that has the selector, and leaves the selector output, if the scope has no cycle of calls; each activation decreases (classes not loaded, rank of the selector) |
| Emitter.CacheEmitter.OutputWithDependencies | src/premethod.c:634-725 | the three loops in order and the second check, which matters when an inner activation has output the same method |
| Emitter.CacheEmitter.Emit | src/premethod.c:717-723 | marks a method whose dependencies are output, outputs its source, and defines those of its variables that are not defined yet |
| Emitter.CacheEmitter.CacheMethodSrcToOutput | src/premethod.c:550-590 | outputs a method from a fresh copy of its cache file, with the same guarantees |
| Emitter.CacheEmitter.LoadConstructedClasses | src/premethod.c:636-653 | every class the method constructs is marked afterwards, unless it was pending or cached |
| Emitter.CacheEmitter.OutputCallees | src/premethod.c:655-681 | every method whose selector is read from a call is output afterwards |
| Emitter.CacheEmitter.OutputFixups | src/premethod.c:683-715 | every method it has a fixup for is output afterwards, and the source in the array has all its markers blanked out |
| Emitter.CacheEmitter.LoadCachedClass | src/preclass.c:393-436 | the class is marked, and all its variables are defined unless it was pending or cached; if it was not marked before, the output goes on with the class and exactly its own variables not yet defined, whatever nested loads do to the shared record |
| Emitter.CacheEmitter.GenerateInitFromCache | src/preclass.c:316-391 | outputs the class read last, then its variables not yet defined in file order, then all its cached methods |
| Emitter.CacheEmitter.OutputMembers | src/preclass.c:358-377 | every prototype with a cache file is output afterwards, the others are passed over |
| Emitter.CacheEmitter.DefineVariables | src/preclass.c:330-348 | a run of definition calls outputs the variables whose keys the table lacks, each the first time, and leaves the table with all keys |
| Emitter.CacheEmitter.RegisterVariables | src/premethod.c:416-449 | does so for the variables of a method's `.init` file |
| Emitter.CacheEmitter.Serve | src/premethod.c:614-727 | an outermost call whose needs have no cycle of calls adds to the selectors and the classes exactly the least closed scope of its request, everything needed and nothing else, and leaves exactly the variables of what has been output defined; the classes and methods that the method's source names are there afterwards if and only if it has a method call, or they were there before |
| Emitter.CacheEmitter.ServeAll | src/premethod.c:614-727 | after any run of outermost calls the tables hold exactly the least closed scope of all requests and its variables, in whatever order they came |
| EmitState.ExactlyWhatIsNeeded | src/premethod.c:614-727 | closure under re-entrance: with no class half loaded, a step within the least closed scope of a request that meets the request adds all of that scope |
| EmitState.EmitMethod | src/premethod.c:717-723 | outputting a method whose callees are output and whose classes are marked, with its variables, keeps the invariant |
| EmitState.OpenClass | src/preclass.c:415-421 | marking a class before its methods are looked at, and outputting it with its variables, keeps the invariant with that class still open |
| EmitState.CloseClass | src/preclass.c:358-391 | once all its cached methods are output, a class is closed |
| EmitState.ReachIsClosed | src/premethod.c:636-715 | the least closed scope of a request is closed and includes the request |
| EmitState.ReachIsLeast | src/premethod.c:636-715 | and lies within every other such scope |
| EmitState.ReachOfBoth | src/premethod.c:614-727 | what two requests need together is what each of them needs |
| EmitState.VarsAreOwed | src/premethod.c:282-312 | the table of variables has exactly the keys of the variables of the methods and classes that have been output |
| EmitTrace.AtMostOnce | src/premethod.c:621-629 | in sound output no selector and no class occurs twice |
| EmitTrace.VariablesAtMostOnce | src/premethod.c:303-312 | and no two variables with the same key, whichever classes and methods define them |
| EmitTrace.DependenciesFirst | src/premethod.c:658-723 | a method in the output whose source has a method call comes after each method read from its calls and fixups, and its text is its source with the markers blanked out |
| EmitTrace.ClassesFirst | src/preclass.c:413-428 | a method in the output whose source has a method call comes after the definition of each class read from its constructor calls, with that class's own superclass, cycles or not |
| SourcesWithoutCalls.NamedMethodsAreDeps | src/premethod.c:624-715 | all methods that a source calls or has a fixup for are looked for because of it if and only if it has a method call, or no fixups |
| SourcesWithoutCalls.NamedClassesAreConstructed | src/premethod.c:624-653 | all classes it constructs are, but for those pending or cached, if and only if it has a method call or has no others |
| SourcesWithoutCalls.OutputIsUnmarked | src/premethod.c:624-715 | the text output for a source with markers in the documented format has no marker left if and only if it has a method call, or had no marker |
| SourcesWithoutCalls.MarkersInOutput | src/premethod.c:624-723 | so it is for each method in the output, and under the same condition all the selectors of its markers are dependencies; with a method call they are output before it |
| SourcesWithoutCalls.LocalObjectIsOverlooked | src/premethod.c:624-629 | a source that constructs a String and has no other call: String is not loaded because of it, and a call for it needs nothing but the method |
| WrittenSource.ClassesAreFound | src/premethod.c:636-653 | from a source with any number of constructor and method calls as written by generate_primitive_method_call and fmt_method_call, the classes read are exactly those constructed, in order |
| WrittenSource.SelectorsAreFound | src/premethod.c:658-681 | one name is read of each method call; the names are the selectors, in order, if and only if no receiver has a `,` in it, or has its own selector behind that and blanks, before another `,` |
| WrittenSource.CallsAreSeen | src/premethod.c:624 | the source has `__ctalk_method` in it if and only if a method call was written |
| EmittedCalls.CallsComeFirst | src/premethod.c:636-681 | in sound output such a method comes after every method it calls and every class it constructs, if it has a call and no receiver misleads the search |
| EmittedCalls.LiteralMisleads | src/premethod.c:660-668 | a message to a literal with a `,`, of which something else is read for the selector |
| EmitState.NamedClassesAreLoaded | src/premethod.c:624-653 | after a call for a method all classes its source constructs are loaded, but for those pending or cached, if and only if it has a method call or they were loaded before |
| EmitState.NamedMethodsAreOutput | src/premethod.c:624-715 | all methods it names are output if and only if it has a method call or they were output before |
| EmitTrace.VariablesFollow | src/preclass.c:327-348 | in finished output a class or a method is followed by exactly those variables of its file that were not defined before, in file order, and by no other variable |
| EmitTrace.AllVariablesFollow | src/preclass.c:327-348 | by all of them if and only if none was defined before and no two have the same key |
| EmitTrace.NoVariablesFollow | src/preclass.c:327-348 | by none if and only if all were, as when a class is loaded after one of its methods |
| EmitState.LoadedAfterMethod | src/preclass.c:327-348 | a class loaded after a method that has defined all its variables is followed by none |
| EmitTrace.WrittenIsOwed | src/premethod.c:282-312 | in finished output the variables of every class and method have been defined, and no others |
| EmitTrace.OutputIsRanked | src/premethod.c:655-681 | in sound output every method has a rank that its dependencies decrease |
| EmitTrace.CyclesAreNeverOutput | src/premethod.c:655-681 | so no sound output has a method that depends on itself, directly or through others |
| CallGraph.RankedIsAcyclic | src/premethod.c:655-681 | methods whose dependencies decrease a rank have no cycle of calls |
| CallGraph.AcyclicIsRanked | src/premethod.c:655-681 | and the methods of a closed scope without such a cycle have a rank |
| ReturnedCalls.ReturnedIsAcyclic | src/premethod.c:614-727 | whatever has been output: if a call for a method or a class returns, by a finite tree of activations that follow the code, then nothing it needs is on a cycle of calls, members of the classes on the way included |
| DefinedVars.FreshDefinesAll | src/premethod.c:303-312 | the variables that get defined have none of the keys in the table, and afterwards it has all keys |
| DefinedVars.FreshIsAll | src/premethod.c:303-312 | all variables get defined if and only if the table has none of their keys and no two have the same |
| DefinedVars.KeyTellsVariable | src/premethod.c:282-290 | a key tells class, kind and name of the variable when class names have no `_` |
| DefinedVars.KeysCanCollide | src/premethod.c:282-290 | and does not when they may: two variables of different classes with one key |
| DefinedVars.KeysMeet | src/premethod.c:282-290 | variables of two kinds of two classes can have the same key if and only if one class name with its mark is how the other with its mark begins |
| ClassRecords.CacheFile.SaveClassInitInfo | src/preclass.c:64-94 | truncates the file to the header record when the class needs updating, and leaves it alone otherwise |
| ClassRecords.CacheFile.SaveVarInitInfo | src/preclass.c:97-164 | appends one record of the right kind, the class and the initial value defaulted |
| ClassRecords.CacheFile.SaveClass | src/preclass.c:64-164 | a header write and any run of appends leave the text of the class's records |
| ClassRecords.FillInClassInfo | src/preclass.c:187-312 | the parser loop computes what the records of the file add up to |
| ClassRoundTrip.CleanRecordsAreRead | src/preclass.c:205-309 | records without stray delimiters are read as themselves, one turn for each |
| ClassRoundTrip.ClassFileRoundTrip | src/preclass.c:187-312 | a class file parses back to class, superclass and all variables in order with their kinds if and only if no initial value has a newline; `:` in a value does no harm |
| ClassRoundTrip.WrittenClassRoundTrip | src/preclass.c:97-164 | the same of a file as the writers leave it: a missing class is the class itself, a missing value "(null)" |
| ClassRoundTrip.RecordsOfExample | src/preclass.c:64-164 | the records of one class, letter by letter and field by field |
| ClassRoundTrip.ShortRecord | src/preclass.c:238-271 | a variable record with one field only gives that as the initial value, and empty names |
| ClassRoundTrip.SecondHeader | src/preclass.c:208-236 | a second header record overwrites the names only as far as its own reach |
| InitRoundTrip.AtoiAscii | src/premethod.c:127-128 | `atoi` reads back the decimal text of every natural number |
| InitRoundTrip.AtoiReads | src/premethod.c:127-128 | it reads the number in front of any text, behind whitespace and with its sign |
| InitRoundTrip.RecordsMakeExpected | src/premethod.c:316-472 | reading every record of a method gives its own record, its non-C parameters, its argument blocks, templates and variables in order, with their integers |
| InitCache.InitFileRoundTrip | src/premethod.c:84-230 | when names have no delimiters, a `.init` file parses back to all of that if and only if no variable's value has a `:` or a newline |
| InitQuiet.FileIsReadBack | src/premethod.c:364-467 | of any file of a method the parser reads every record, a variable's up to the first `:` or newline in its value, and then what is left of the value's line for records |
| InitQuiet.InitFileRoundTripQuiet | src/premethod.c:316-472 | without variable definitions wanted, everything else is recovered if and only if what is left of those lines is read to its end, adds no block, parameter or template, and last says of the method what its own record says |
| InitFiles.SavePreInitInfo | src/premethod.c:84-230 | the printer writes the records in order: blocks, method, non-C parameters, variables not named "value", templates |
| InitFiles.RecordsOfExample | src/premethod.c:84-230 | the records of one method, letter by letter and field by field |
| InitFiles.PremethodScanLine | src/premethod.c:316-329 | finds every `:` up to the newline, and the newline |
| InitFiles.ReadFields | src/premethod.c:365-380 | the strings between those offsets are the record's fields, and the position moves past exactly one record |
| InitFiles.FillInInitInfo | src/premethod.c:331-472 | the parser loop computes what the records of the file add up to |
| RegisterInit.RegisterInit | src/premethod.c:485-548 | the definitions made are those that the file's information calls for |
| RegisterInit.RegisteredAsWritten | src/premethod.c:498-543 | a method whose selector has the mark of its own kind is registered as a method of that kind, parameters included, if and only if it is an instance method, or its selector has no `_instance_`, and no `instance` either if it has parameters that are not C |
| MethodDefinitions.MethodIsDefinedAgain | src/premethod.c:485-548 | said of the method itself: what is defined from its file are its variables but for "value", its blocks, the method with the number of its parameters, its result, and its parameters that are not C; exactly if its selector does not mistake its kind |
| MethodDefinitions.FileHasVariables | src/premethod.c:416-449 | the file of a method gives the instance variables of its class as such and the class variables as such, with the class of the value each has |
| MethodDefinitions.OneKey | src/premethod.c:282-312 | a variable has the same key there as in its ".class" file, whatever class and value either gives it |
| RegisterInit.ClassMethodMistaken | src/premethod.c:498-543 | make_instance_of, a class method of Foo without parameters: its file parses back, and what is registered is not the class method it describes |
| MethodSource.ElideFixupMarker | src/premethod.c:592-601 | blanks out a marker up to the end of its line, in place |
| MethodSource.ElidedKeepsLines | src/premethod.c:690-715 | blanking out the markers of any text keeps its length and every newline, and changes other characters only into blanks |
| FixupMarkers.FixupRoundTrip | src/premethod.c:683-715 | in any source with markers in the format that src/output.c documents as fixed (fmt_fixup_info), the scan finds each marker's selector in order, and blanks out exactly the markers, so that none is left |
| FixupMarkers.SourceIsRead | src/premethod.c:690-715 | the same from any position on, behind text already dealt with |
| FixupMarkers.ElidedIsUnmarked | src/premethod.c:592-601 | the blanked source has no marker anywhere |
| CStrings.Whitespace | src/premethod.c:661-664 | the characters that isspace accepts: blanks, newlines, vertical tab and form feed, no letters or digits |
| LineSplitter.SplitTiles | lib/edittext.c:287-377 | the lines start at 0 and strictly increase, each is the slice of the text at its start, the next starts at its end or one past it, at its end only after whitespace, and the last one ends with the text |
| LineSplitter.SplitFitsWidth | lib/edittext.c:328-372 | all characters of a line from index width + 1 on are whitespace (from the first on if the width is negative), and no newline comes before |
| LineSplitter.OneLineExactly | lib/edittext.c:328-372 | a text is one line if and only if it has no newline and at most width + 1 characters, or is empty |
| LineRules.OnlyTheseLines | lib/edittext.c:287-377 | the splitter's lines are the only ones that keep the rules: a line ends at a newline within the limit, which is left out; else past it, with the whole run but one if there is whitespace at the limit, behind its last whitespace if it has one, and at the limit if not |
| LineRules.OneRightCut | lib/edittext.c:328-372 | the rules allow one place to break a line, and none if it is the last |
| LineRecords.SplitText | lib/edittext.c:287-377 | the loop, which moves back at a soft break, terminates and builds the list of those lines |
| LineRecords.ReadLine | lib/edittext.c:295-372 | one line is read into the buffer up to the break, with the position where the next one starts |
| LineRecords.BreakLine | lib/edittext.c:328-372 | past the width: the whitespace run is kept and swallowed, or the reading goes back to the last whitespace, or the line is cut |
| LineRecords.LinerecPush | lib/edittext.c:240-252 | links a record at the end of the list |
| LineRecords.LineList.PushLine | lib/edittext.c:300-326 | adds the line in the buffer to the list |
| ReflowLocality.ReflowIsLocal | lib/edittext.c:287-377 | if two texts agree up to p, and line k of the first starts at or before p, then lines 0 to k - 2 are the same in both |
| ReflowLocality.LookAheadIsBounded | lib/edittext.c:328-372 | deciding where a line ends never looks past where the next line ends |
| ReflowLocality.LineBeforeCanChange | lib/edittext.c:351-372 | the bound is exact: an edit in line 1 can change line 0 |
| LineCursor.PointHasOneLine | lib/edittext.c:1420-1444 | every point of the text is on exactly one line, at a column of at most its length |
| LineCursor.LineEndsBracket | lib/edittext.c:1164-1221 | line start and line end are the first and the last place on the point's line, and are idempotent |
| LineCursor.PrevLineGoesUp | lib/edittext.c:1077-1097 | the point strictly decreases, and lands on the line above if and only if that line was not soft-broken short of the column, at the column it had or at the end of a shorter line; otherwise at the start of its own line |
| LineCursor.PrevLineStays | lib/edittext.c:1077-1097 | a two-line text on which it stays on the second line |
| LineCursor.PrevLineIsUndone | lib/edittext.c:1077-1142 | next-line takes previous-line back if and only if the line above is long enough for the column, and not soft-broken there |
| LineCursor.PrevLinesReachTop | lib/edittext.c:1059-1111 | repeating it reaches the first line |
| LineCursor.NextLineGoesDown | lib/edittext.c:1132-1142 | without scrolling the point strictly increases, and lands on the line below if and only if that line was not soft-broken short of the column, at the column it had or at the end of a shorter line; otherwise at the start of the line after it |
| LineCursor.NextLineIsUndone | lib/edittext.c:1077-1142 | previous-line takes next-line back if and only if the line below is long enough for the column, and not soft-broken there |
| EditModel.StepIsSound | lib/edittext.c:857-1057 | every operation keeps the point in the text, the view start from being negative, and the text free of NULs |
| EditModel.Run | lib/edittext.c:857-1413 | so does every run of operations |
| EditModel.RunConcat | lib/edittext.c:857-1413 | a run of two lists of operations is the run of one after the other |
| EditModel.BackspacesEraseString | lib/edittext.c:949-1018 | as many backspaces as a string has characters take it away again |
| EditModel.InsertionIsUndone | lib/edittext.c:868-884 | inserting a string and pressing backspace once per character restores text, point and view |
| EditModel.InsertStrIsTyping | lib/edittext.c:868-884 | inserting a string is inserting its characters one by one |
| EditModel.NextLineReaches | lib/edittext.c:1130-1159 | next-line ends on the line below if and only if it does not scroll and that line is not cut short of the column, or it scrolls and the line number stored in the point happens to be that line's start |
| EditModel.NextLineSkipsLine | lib/edittext.c:1130-1142 | a three-line text on which it goes from line 0 to line 2 without scrolling |
| EditModel.ScrollingMisplacesPoint | lib/edittext.c:1146-1159 | a four-line text on which scrolling down one line puts the point back on line 0 |
| EditLaws.EditsAreAtPoint | lib/edittext.c:857-1025 | inserting, deleting and backspace change exactly the character in front of or behind the point, the rest of the text moves up |
| EditLaws.DeletingIsUndone | lib/edittext.c:974-1010 | deleting is moving on and backspace, and both are taken back by typing the character |
| EditLaws.DeletionsErase | lib/edittext.c:1345-1372 | n deletions take away the n characters behind the point |
| EditLaws.DeleteKeyEmpties | lib/edittext.c:949-998 | the delete key, pressed as often as the text has characters, empties it from any point |
| EditLaws.ErasingKeys | lib/edittext.c:949-998 | backspace erases the character in front of the point, delete the one behind it, or at the end of the text the one in front |
| EditLaws.SignsType | lib/edittext.c:911-931 | the keys of digits and signs type what is on them, with and without the shift key |
| EditLaws.LettersType | lib/edittext.c:932-936 | the keys of letters type small letters and capitals |
| EditLaws.OthersType | lib/edittext.c:910-964 | return types a newline, other key symbols their lowest byte |
| EditLaws.CharsMovedOn | lib/edittext.c:1042-1057 | n motions by one character move the point n places on, but not past the end of the text |
| EditLaws.CharsMovedBack | lib/edittext.c:1027-1040 | or n places back, but not past its start |
| EditLaws.TextEndsAreReached | lib/edittext.c:1374-1413 | going to the start or the end of the text goes where enough of these do |
| EditLaws.PrevLineShowsPoint | lib/edittext.c:1095-1107 | previous-line scrolls back exactly in the margin at the top of the view; the point's line stays shown unless it was the first one shown, there is no margin, and the point moves up |
| EditLaws.PrevLineOnFirst | lib/edittext.c:1078-1107 | on the first line the point stays, and scrolling depends on a number that is not set |
| EditLaws.NextLineShows | lib/edittext.c:1125-1159 | when next-line scrolls, where it leaves the point, and that it scrolls as little as the margin asks for |
| EditLaws.EndIsShown | lib/edittext.c:1398-1408 | at the end of the text the view has as many lines as its height without the margin, or all |
| Editor.StrCpy | lib/edittext.c:869 | copies a string with its terminator, and nothing else |
| Editor.InsertInto | lib/edittext.c:869-871 | puts a character in a buffer and moves the rest up |
| Editor.RemoveFrom | lib/edittext.c:976-977 | takes characters out of a buffer and moves the rest down |
| Editor.EditorPane.InsertStrAtPoint | lib/edittext.c:857-888 | both buffers hold the text with the string in it, and the point is behind it |
| Editor.EditorPane.InsertAtPoint | lib/edittext.c:890-1025 | the key's effect on text and point in every branch; the buffers stay good if and only if the key erases or its low byte is not NUL |
| Editor.EditorPane.DeleteChar | lib/edittext.c:1345-1372 | removes the character at the point from both buffers, nothing at the end |
| Editor.EditorPane.PrevChar | lib/edittext.c:1027-1040 | one back, not before the start |
| Editor.EditorPane.NextChar | lib/edittext.c:1042-1057 | one on, not past the end |
| Editor.EditorPane.FindLine | lib/edittext.c:1077-1083 | the walk over the records finds the point's line and its number |
| Editor.EditorPane.LineStart | lib/edittext.c:1164-1190 | the point goes to the start of its line |
| Editor.EditorPane.LineEnd | lib/edittext.c:1192-1221 | the point goes to the last position of its line |
| Editor.EditorPane.PrevLine | lib/edittext.c:1059-1111 | point and view start as the previous-line motion gives them |
| Editor.EditorPane.NextLine | lib/edittext.c:1113-1162 | point and view start as the next-line motion gives them, scrolling included |
| Editor.EditorPane.TextStart | lib/edittext.c:1374-1382 | point and view start go to 0 |
| Editor.EditorPane.TextEnd | lib/edittext.c:1384-1413 | the point goes to the end of the text, the view start to what the number of lines leaves |
| Editor.EditorPane.DoAll | lib/edittext.c:857-1413 | safety of every editing run: both buffers stay equal, the text in front and NULs behind, and stand for the state the run leads to |
| Editor.EditorPane.InsertAndErase | lib/edittext.c:868-1018 | insertion and backspaces restore every byte of both buffers, the length, the point and the view, in the middle and at the end of the text |
| Editor.CalcPointCursor | lib/edittext.c:1420-1444 | finds the record of the one line that has the point, with line start + column = point and 0 <= column <= its length |
| TextBoxes.CompressionConserves | lib/textcx.c:410-477 | each box left stands for one to four consecutive boxes, which account for the whole list in order, and has their texts, the sum of their widths, the OR of their line breaks and the position of the first, whatever the tests say |
| TextBoxes.CompressionKeepsText | lib/textcx.c:373-386 | so the concatenated text, the total width, where it begins, and whether there is a break stay the same |
| TextBoxes.MergedHasAll | lib/textcx.c:373-386 | a box put together of several has their texts in order, their total width, a break if one has it, and the first one's position |
| TextBoxes.WordsOfOneLength | lib/textcx.c:456-459 | two words with a blank behind each are put together if they have the same length, never if the first is shorter or one longer, and by chance if it is longer still |
| TextBoxes.CompressionKeepsBreaks | lib/textcx.c:415-460 | the line breaks stay where they were in the text if and only if no word that ends a line is followed by blanks, and the second pass combines no pair whose first box ends a line |
| TextBoxes.FirstPassCovers | lib/textcx.c:411-435 | the first pass combines every pair of a word and blanks, so it covers a break if and only if such a word ends a line |
| WrapText.BlanksOnNextLine | lib/textcx.c:673-699 | in a laid-out list that is where blanks after a word have gone to the next line |
| TextBoxes.CoveredBreakIsLost | lib/textcx.c:456-460 | if a pass does combine such a pair, then some line break is lost for good: no box ends there any more |
| BoxGeometry.CompressionKeepsLines | lib/textcx.c:391-488 | of boxes that stand in lines, compression that keeps the line breaks leaves boxes that do: none is left of the margin, no two on a line overlap, and one made of several ends within the line |
| WrapText.LaidInLines | lib/textcx.c:673-699 | the boxes of every layout stand in lines within the pane |
| BoxList.CombineTboxes | lib/textcx.c:373-386 | the first box gets both texts, both widths, and a line break if the second has one, and stays where it is |
| BoxList.TakeOutNext | lib/textcx.c:418-422 | unlinking a key keeps both directions of the list consistent; the first pass clears the links of what it takes out |
| BoxList.CombineWordsWithBlanks | lib/textcx.c:406-435 | the first pass leaves a consistent list with the boxes that pairing words with blanks gives |
| BoxList.CombineWords | lib/textcx.c:446-477 | the second pass leaves a consistent list with the boxes that pairing words gives, for any outcome of the read past the text |
| BoxList.CompressTokens | lib/textcx.c:391-488 | both passes one after the other |
| WrapLayout.BoxesDoNotOverlap | lib/textcx.c:673-699 | no box is left of the margin, lines go down, and boxes on one line do not overlap |
| WrapLayout.GreedyLayout | lib/textcx.c:564-699 | a box that is no newline goes to the next line exactly when the widths charged to the line so far leave no room for it; it ends within the pane unless it is too wide for any line, and then shares its line with at most a newline; the box before it has the line-break flag exactly when it is further down |
| WrapPlaces.EveryPlace | lib/textcx.c:573-699 | each box begins exactly where those before it on its line end, or at the margin; it is as wide as its text, unless it is a newline, a tag that is not escaped, the backslash before an escaped one, or a single blank that opens a line, which take no room |
| WrapText.MeasureBox | lib/textcx.c:574-664 | the width of a box in the face chosen by the tags so far, 0 for a tag or a newline; the backslash before an escaped tag gets width 0; a bold or italic tag changes the face |
| WrapText.LastTagChooses | lib/textcx.c:616-625 | a text is measured in the face of the last tag for bold or italic before it, or in the regular one behind its end |
| WrapText.PlaceBox | lib/textcx.c:574-700 | one turn of the loop, all branches: escaped tag, tag, newline, overflow with or without a single blank, room |
| WrapText.PlaceBoxes | lib/textcx.c:567-700 | the loop gives every box the position, width and flag of the layout, each text measured in the face that the tags before it choose, and leaves the texts and the list alone |
| WrapText.WrapText | lib/textcx.c:492-709 | the list is left with what compressing the layout gives: every box stands for one to four consecutive boxes of the layout and is where the first of them was placed; and if the line breaks are kept, no box is left of the margin, boxes on a line do not overlap, and one made of several ends within the pane |
| WrapText.TwoLines | lib/textcx.c:673-699 | the layout of "foo bar " in a pane four wide |
| WrapText.LinesAreJoined | lib/textcx.c:451-460 | compressing that layout makes one box of both lines, twice as wide as the pane, and loses the break between them |

## Left out

- Files, `stat`, X11, fonts, shared memory and selection ownership: a cache file is the string it holds, widths come
  from a function of the text.
- Emitter.CacheEmitter.LoadCachedClass: a class without a cache file goes to `library_search`, which is not part of
  this model; every class a cached method constructs is taken to have a file that parses and is about that class.
- Emitter.CacheEmitter.OutputPreMethod: the method is taken to be in the cache with the source it is called with, and
  every method it needs to have a cache file and a `.init` file that parses, as the code assumes; templates
  (src/premethod.c:603-612) are not output. Of `register_init` the walk has the definitions of variables; the others are
  in `RegisterInit`, and the event that outputs a method stands for them too.
- Emitter.CacheEmitter.DefineVariables: the output is the sequence of calls. The function that is generated in the end
  has the definitions of variables after those of classes, each in that order.
- Emitter.CacheEmitter.GenerateInitFromCache: `preload_method_prototypes` is not part of this model; the prototypes
  of a class are given. The buffer for files shorter than MAXLABEL is not told apart from the others.
- Emitter.CacheEmitter.OutputMembers: says that all cached methods are output, each after what it needs, but not in
  which order methods that do not need each other come; the same holds of the three loops over a source.
- Names longer than MAXLABEL, more than MAXARGS records, lines longer than the line buffer: the fixed sizes of the
  source are not modelled.
- InitFiles.FillInInitInfo: a record that lacks fields, or begins with an unknown letter, is reported as an error; the
  source reads on from offsets it never set, or does not come back.
- ClassRecords.FillInClassInfo: the same of the ".class" files.
- RegisterInit.RegisterInit: gives the definitions that are called for; which of the variables are passed over because
  they are defined already is in `Emitter`.
- Editor.EditorPane.InsertAtPoint: no selection is active, the keysym is given, and the buffer has room for the
  character; growing it depends on the allocator.
- Editor.EditorPane.PrevLine: the line number that the source leaves unset on the first line is a parameter.
- Editor.EditorPane: the point is kept twice in the source, in an instance variable and in its value variable; the
  model has one field.
- LineRecords.SplitText: the single loop of the source is written as a loop over lines around a loop over characters.
- Deleting a selection, paging and clicks in the editor: the first two break the invariant of the others, the last
  depends on font metrics.
- WrapLayout.GreedyLayout: centred text is not modelled, so no token is a centre tag; heights and the y position,
  which is never stored, are left out.
- WrapText.PlaceBoxes: the first token is not an escaped tag, for which the source would use an unset pointer.
- BoxList.CombineWords: the read past the end of a text gives an arbitrary answer. What is taken out of the list is
  not freed, and the two copies of a box's text are one field.
- The parser, the lexer, the symbol tables, method lookup, format scanning and number conversion of the rest of the
  repository.
