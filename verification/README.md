# llama.cpp, modelled and proved in Dafny

This project models the self-contained cores of this fork of llama.cpp and proves what they are for:

* **Streamed chat replies** (`PegMapper`, `CallAssembly`, `CallForms`, `Streaming`, `TaggedStream`, `TaggedExact`,
  `Replies`, `MessageDiff`, `ClientRun`, `PythonArguments`): the mapper that turns parse events into a message with
  partly written JSON arguments, the comparison that sends a client only deltas, and the end-to-end claim that a client
  folding every delta of any growing run of parses holds exactly the message that the reply means.
* **Literals and JSON** (`Transcoder`, `TranscoderPieces`, `PythonLiterals`, `JsonScan`, `JsonReading`): the rewriting
  of Python literals into JSON, what it makes of any text, the value the result reads as, and exactly where it is
  monotone on streamed input.
* **Combinators, tree printers and tree mappers** (`PermuteParser`, `PartialAst`, `OpenValues`, `Gemma4Printer`,
  `MinimaxM3Printer`, `TreeMessages`, `Gemma4Mapper`, `MinimaxM3Mapper`): the permutation parser, and the same
  end-to-end claim for the two formats whose messages are made from whole trees.
* **Low-rank tensors** (`Tensors`, `TensorMeaning`, `Picks`, `PickMoves`, `LoraTensor`, `LoraIndexing`, `LoraTuples`,
  `LoraShapes`, `LoraCombine`, `LoraAccepts`, `LoraPrograms`, `LoraRotary`, `LoraExact`, `LoraWitnesses`): which shapes
  every operation accepts, that on the factors it refines the same operation on the product, and that so does every
  computation composed of them, such as the reordering of query and key weights.
* **Template comparison** (`Segments`, `DiffSplit`, `DiffMaximal`): marker segmentation and the two-ended diff.
* **Codecs and scanners** (`Base64`, `Base64Bits`, `GgmlFormat`, `GgmlReader`, `GgmlExact`, `GgmlWriter`,
  `GgmlRoundTrip`, `GgmlEligibility`, `CsvRow`, `MessageSpans`, `ToolResults`, `PartialStop`).

`Wrappers`, `Sequences`, `Text`, `ChatMessage` and `Division` are shared. Code that changes state step by step is modelled by
methods or classes proved against specification functions; the properties are lemmas about those functions.
`dafny verify dfyconfig.toml` checks everything. Some recursive specification functions are written as two
mutually recursive ones, the second doing one step; that keeps proofs quick and has no other meaning.

Strings are sequences of characters. String escaping follows section 7 of RFC 8259, Base64 sections 4 and 5 of
RFC 4648, CSV quoting section 2 of RFC 4180.

## What turned out differently from what the code or its comments say

* The comment at common/chat-peg-parser.cpp:160 promises monotone output for the literal transcoder. It holds
  exactly when the cut is none of two kinds (`Transcoder.MonotoneExactly`): between a backslash and an escaped
  single quote inside a single-quoted string, or inside a word that begins like True, False or None and
  turns out to be another word. `Transcoder.BadCutsExist` gives one input of each kind. What that does to a whole
  stream is exact as well: a reply in which a raw value was cut so makes a comparison throw, and any other reply arrives
  (`TaggedExact.TaggedReplyExactly`).
* Transcoding Python literals keeps their value exactly when Python writes no character of their strings with a
  hexadecimal escape of two or of eight digits, which JSON does not have (`JsonReading.NormalizeKeepsValue`;
  `PythonLiterals.ControlCharacterIsNotJson` is the shortest input). The result is letter by letter the JSON print of the
  value exactly when no character is written by its number at all (`PythonLiterals.NormalizePreservesMeaning`).
* A call with a blank name is emitted all the same (`CallForms.BlankNameEmitted`), although the comment at
  common/chat-peg-parser.cpp:448 says that an unnamed call is discarded; that holds only for a call in which no name
  node came at all (`CallAssembly.NeverNamedNeverEmitted`). An argument value after the end of a call is written behind
  its closing brace (`CallForms.LateValueAppended`), and an empty string node after another one leaves a quote too many
  (`CallForms.StringInPieces`).
* A Gemma 4 string node without a content node prints one quote even when it is complete
  (`Gemma4Printer.StringWithoutContent`).
* The flush at the end of `from_ast` (common/chat-peg-parser.cpp:284-313) never has anything to do
  (`CallAssembly.FlushIsDead`).
* The two-ended diff loses text. It conserves both inputs exactly when no branch after its loop matches a segment a
  second time, or the segment matched again is the last one of the left side (`LeftAgain`) and the left text is a prefix
  of the right one (`DiffSplit.ConservedExactly`). A second match on the right, or of the one marker left on each side,
  is not repaired by a prefix: `<a><b>` against `<a><b><b>` is the witness (`DiffSplit.ExtraMarkerIsLost`). Looking at the
  two flags before those branches would repair it (`DiffSplit.GuardedAlwaysConserves`).
* `split` ignores a skip region that the one before it reaches into, and every later region with it
  (`MessageSpans.SplitExactly`, `MessageSpans.NestedSkipDisablesLater`).
* The two guards in `deepseek_v4_sort_tool_results` only save work (`ToolResults.GuardsSaveWork`).
* Low-rank operations can be accepted and go wrong in these cases, each with its exact condition and a witness in
  `LoraWitnesses`: a broadcast axis of A sliced to nothing (`LoraIndexing.GetFirstExactly`); in a tuple, a slice on an
  axis that A does not broadcast, or integers on both of the last two axes (`LoraTuples.GetTupleExactly`,
  `LoraTuples.LastIntegers`); an ellipsis that is not last and whose picks move other elements than those meant
  (`LoraExact.EllipsisExactly`); a batched `cat` whose batches do not align (`LoraExact.CatAlwaysRight`); and at rank 0 a
  reshape to another size (`LoraShapes.ReshapeRefines`). The conditions on ellipses and `cat` are exact for the
  shapes: where they fail, some factors of those shapes give a wrong result.
* A partial argument name, which the grammar never produces, would break the growth of the MiniMax-M3 text
  (`MinimaxM3Printer.PartialNameBreaksGrowth`).

## Model

| member | source | states |
|---|---|---|
| MessageDiff.ComputeDiffs | common/chat.cpp:266-332 | the loop-filled vector of deltas, or the exception, is what the specification says; `MessageDiff.DeltasExactly` says what the deltas are |
| MessageDiff.ThrowsExactly | common/chat.cpp:266-332 | an exception exactly when calls shrink, a text is prefix-incomparable, or the last old call's name changes to a non-extension |
| MessageDiff.ThrowsWhich | common/chat.cpp:266-332 | which exception: texts before calls, a name before its arguments |
| MessageDiff.DeltasExactly | common/chat.cpp:279-329 | the deltas one by one: what each text lacks; for the last old call name and id if either changed and neither if not, with what its arguments lack; nothing for it if nothing changed; every new call whole |
| MessageDiff.NoEmptyDelta | common/chat.cpp:279-329 | between a message and one that grew, no delta is empty but for a new call that is |
| MessageDiff.DiffsExact | common/chat.cpp:266-332 | otherwise folding the deltas leaves the longer texts, earlier calls, and all new calls, with at most (new - old) + 3 deltas |
| MessageDiff.ExtensionReconstructs | tests/test-chat.cpp:1145-1180 | when the new message only extends the old, nothing is thrown and the client holds exactly the new message |
| MessageDiff.ExtendsTransitive | common/chat.cpp:266-332 | growing message by message is growing overall |
| PegMapper.Mapper.Map | common/chat-peg-parser.cpp:315-456 | one event moves the five fields and the result as the specification's step does |
| PegMapper.Mapper.MapOnCall | common/chat-peg-parser.cpp:350-455 | the events that need a call, in their branches, whole-object arguments among them |
| PegMapper.Mapper.MapName | common/chat-peg-parser.cpp:358-373 | naming promotes the pending call and hands over the buffered arguments |
| PegMapper.Mapper.MapValue | common/chat-peg-parser.cpp:403-424 | what a value adds, and when a closing quote becomes pending |
| PegMapper.Mapper.MapClose | common/chat-peg-parser.cpp:433-455 | closing adds the pending quote and one brace for each still open, or drops an unnamed call |
| PegMapper.Mapper.FromAst | common/chat-peg-parser.cpp:284-313 | visiting all nodes and finishing gives the message of the whole event list |
| CallAssembly.RunKeepsInv | common/chat-peg-parser.cpp:315-456 | after any events, pending call, active call, buffer and quote flag fit together |
| CallAssembly.FlushIsDead | common/chat-peg-parser.cpp:284-313 | the final flush changes nothing after any events |
| CallAssembly.TextIsCollected | common/chat-peg-parser.cpp:315-328 | content and reasoning are exactly the texts of their nodes, whatever comes between |
| CallAssembly.NamePositionIrrelevant | common/chat-peg-parser.cpp:352-456 | a call comes out the same whether its name comes before, between or after its arguments |
| CallAssembly.NeverNamedNeverEmitted | common/chat-peg-parser.cpp:342-456 | a call that never gets a name never reaches the message |
| CallAssembly.ExactAssembly | common/chat-peg-parser.cpp:342-455 | the arguments of a complete call are an opening brace, the comma-joined members, and one brace for each still open |
| CallAssembly.BalancedArgsCloseExactly | common/chat-peg-parser.cpp:42-68 | for balanced values that is one closing brace, depth 0 and no open quote |
| CallForms.WholeObjectArrives | common/chat-peg-parser.cpp:375-382 | a call whose arguments come as one object, named anywhere, arrives with that object, a brace for each one still open, in place of all arguments written before |
| CallForms.NoObjectIgnored | common/chat-peg-parser.cpp:375-382 | a text that does not begin an object changes nothing, wherever it stands |
| CallForms.IdIsUnquoted | common/chat-peg-parser.cpp:350-356 | an id is what stands between its quotes, or all of it if it has none |
| CallForms.LastIdCounts | common/chat-peg-parser.cpp:350-356 | the id of a call is the last one given, or empty |
| CallForms.StringInPieces | common/chat-peg-parser.cpp:403-424 | a string in several nodes is the string of them together, unless a later one is empty |
| CallForms.EndClosesString | common/chat-peg-parser.cpp:433-455 | a call that ends inside a string is the call with the string closed |
| CallForms.OpeningForgetsString | common/chat-peg-parser.cpp:384-401 | an argument that opens inside a string drops its closing quote |
| CallForms.LastNameCounts | common/chat-peg-parser.cpp:358-373 | of two names the second counts and the rest stays |
| CallForms.BlankNameEmitted | common/chat-peg-parser.cpp:358-373 | a call with a blank name is emitted under the empty one |
| CallForms.NothingBeforeOpening | common/chat-peg-parser.cpp:342-455 | without an open call only texts are taken |
| CallForms.LateValueAppended | common/chat-peg-parser.cpp:433-455 | a value that comes after a call's end is written behind it |
| Text.NameTrimmed | common/chat-peg-parser.cpp:24-38 | an argument name loses one character of white space before it and all behind it |
| JsonScan.JsonBraceDepth | common/chat-peg-parser.cpp:42-68 | the loop over the flags computes the scanner's depth |
| JsonScan.DumpBalanced | common/chat-peg-parser.cpp:42-68 | a dumped string never changes the depth and closes its quote |
| JsonScan.DepthCounts | common/chat-peg-parser.cpp:42-68 | the depth is the opening braces less the closing ones, not counting those inside strings |
| Streaming.StepExtends | common/chat-peg-parser.cpp:315-456 | one more event only extends the visible message |
| Streaming.LengthenedStepExtends | common/chat-peg-parser.cpp:315-456 | lengthening the last text only extends the visible message |
| Streaming.GrowingParseExtends | common/chat-peg-parser.cpp:284-456 | a grown parse maps to a message that extends the earlier one |
| Streaming.StreamReconstructs | tests/test-chat.cpp:1145-1180 | over any growing run nothing is thrown and the client ends with exactly the last message |
| TaggedStream.ItemsAllowed | common/chat-peg-parser.h:85-105 | every reply of texts, reasonings, tagged calls and calls with whole arguments is a run the streaming claim covers |
| TaggedStream.TaggedReplyReconstructs | common/chat.cpp:266-332 | any such reply, cut any number of times between nodes or inside the text of one, is reconstructed by the client; raw values are cut where the transcoder's output grows |
| TaggedExact.TaggedReplyExactly | common/chat.cpp:266-332 | with raw values cut anywhere, the client holds the message exactly when every such cut is safe, and otherwise a comparison throws for a text |
| Replies.MessageTexts | common/chat-peg-parser.cpp:284-328 | the message's texts are those of the nodes, reasoning only if it is not all blank |
| Replies.ReplyMeans | common/chat-peg-parser.cpp:284-456 | the message of any reply of texts, tagged calls and calls with whole arguments: the texts joined, and each call with its name, its id and its completed arguments |
| Replies.ReplyArrives | common/chat.cpp:266-332 | and that is what the client holds after any growing run of parses of it |
| ClientRun.ClientDecides | common/chat.cpp:266-332 | whether a run of messages arrives is decided by the comparisons of successive ones |
| Transcoder.NormalizeQuotesToJson | common/chat-peg-parser.cpp:84-186 | the loop over two flags writes what reading token by token gives |
| Transcoder.MonotoneExactly | common/chat-peg-parser.cpp:93-183 | the output of a cut input is a prefix of the full output exactly when the cut is safe |
| Transcoder.StreamedOutputGrows | common/chat-peg-parser.cpp:155-175 | the same for whole inputs |
| Transcoder.BadCutClashes | common/chat-peg-parser.cpp:93-183 | after an unsafe cut the earlier and the whole output contradict each other |
| Transcoder.SafeCutRestricts | common/chat-peg-parser.cpp:155-175 | a cut that is safe in the whole text is safe in every part of it that reaches beyond the cut |
| Transcoder.BadCutsExist | common/chat-peg-parser.cpp:160-175 | an input of each kind whose output does not grow |
| TranscoderPieces.NormalizeExactly | common/chat-peg-parser.cpp:84-186 | what is written for any text: it is cut into words, quoted strings and the rest, and each piece has its own output |
| PythonLiterals.TranscodesValue | common/chat-peg-parser.cpp:79-186 | a printed value is transcoded to its JSON text, in any context that does not continue a word |
| PythonLiterals.NormalizePreservesMeaning | common/chat-peg-parser.cpp:79-186 | the transcoded print is the JSON print of the same tree exactly when Python prints no character of its strings by number |
| PythonLiterals.ControlCharacterIsNotJson | common/chat-peg-parser.cpp:79-186 | a one-character string whose transcoded print is not its JSON text |
| JsonReading.JsonTextReads | common/chat-peg-parser.cpp:42-68 | the JSON print of a value reads as the value |
| JsonReading.NormalizeKeepsValue | common/chat-peg-parser.cpp:79-186 | the transcoded print reads as the value, exactly when Python writes no character with two or with eight digits; otherwise it is no JSON |
| PythonArguments.JsonBalanced | common/chat-peg-parser.cpp:42-68 | every transcoded value leaves braces and quotes balanced |
| PythonArguments.ArgumentsArriveAsJson | common/chat-peg-parser.cpp:390-456 | a mapped call whose arguments are written as Python values, named anywhere in it, arrives with the JSON object of exactly those members |
| PermuteParser.MemoIsExact | common/chat-peg-parser.cpp:239-274 | the memo ends with one rule per non-empty subset, each equal to the unmemoised one |
| PermuteParser.PermuteAcceptsPermutations | common/chat-peg-parser.cpp:239-274 | success exactly where some ordering of all parts runs, ending where the lexicographically first such ordering ends |
| PermuteParser.FullOrderIsPermutation | common/chat-peg-parser.cpp:239-274 | those orderings are the permutations of all the parts |
| PermuteParser.FixedOrderOtherwise | common/chat-peg-parser.cpp:239-250 | with one part or more than six, the given order alone is accepted |
| Gemma4Printer.PrintGrows | common/chat-peg-parser.cpp:962-1055 | the text of a partial tree is a prefix of the text of any tree it grows into |
| Gemma4Printer.PrintsValue | common/chat-peg-parser.cpp:962-1055 | a complete tree prints as the JSON text of the value it stands for |
| MinimaxM3Printer.ToolArgumentsGrow | common/chat-peg-parser.cpp:1096-1196 | the arguments of a growing tool call only grow |
| MinimaxM3Printer.PartialNameBreaksGrowth | common/chat-peg-parser.h:97-103 | a tree with half an argument name whose text does not grow: why names must be atomic |
| MinimaxM3Printer.CollectsTagged | common/chat-peg-parser.cpp:1096-1108 | below any wrappers without a tag, exactly the tagged nodes are collected, in order |
| MinimaxM3Printer.MemberSelected | common/chat-peg-parser.cpp:1110-1133 | in a member the name is found inside its opening and the value behind it |
| MinimaxM3Printer.PrintsValue | common/chat-peg-parser.cpp:1123-1196 | a complete value, as the grammar builds it, prints as its JSON text |
| MinimaxM3Printer.ToolArgumentsExact | common/chat-peg-parser.cpp:1135-1173 | a complete call, as the grammar builds it, prints as the JSON object of its parameters |
| OpenValues.OpenTextBegins | common/chat-peg-parser.cpp:962-1055 | what is printed of an unfinished value begins the JSON text of every value it may become |
| Gemma4Printer.PrintsOpenValue | common/chat-peg-parser.cpp:962-1055 | an unfinished tree prints everything that has arrived of its value, and nothing else |
| Gemma4Printer.StringWithoutContent | common/chat-peg-parser.cpp:979-988 | a string node without content prints its opening quote only |
| MinimaxM3Printer.OpenArgumentsExact | common/chat-peg-parser.cpp:1110-1196 | the arguments of an unfinished call are everything that has arrived of its members |
| MinimaxM3Printer.UnnamedPrintsNothing | common/chat-peg-parser.cpp:1125-1133 | a member prints nothing exactly until its name stands at most three levels down |
| MinimaxM3Printer.NothingPrintedSkipped | common/chat-peg-parser.cpp:1149-1168 | an entry that prints nothing leaves no comma |
| PartialAst.FindsFirst | common/peg-parser.cpp:137-151 | the search by tag finds the first node in visiting order within its depth |
| TreeMessages.AllCollected | common/chat-peg-parser.cpp:1057-1232 | content, reasoning and calls are those of the content, reasoning and tool nodes that stand below no other, in visiting order |
| TreeMessages.AllGrow | common/chat-peg-parser.cpp:1057-1232 | for either format, the message of grown trees extends the earlier one |
| Gemma4Mapper.Mapper.FromAst | common/chat-peg-parser.cpp:956-960 | visiting the trees one by one gives the message of the list |
| Gemma4Mapper.Mapper.Visit | common/chat-peg-parser.cpp:1057-1094 | texts are collected, a tool node with a whole name and arguments adds its call, other nodes are entered |
| Gemma4Mapper.ToolExactly | common/chat-peg-parser.cpp:1069-1089 | a tool node adds a call exactly when, at most three levels down, there are a whole name and arguments |
| Gemma4Mapper.StreamReconstructs | common/chat-peg-parser.cpp:956-1094 | over any growing run of parses the client holds exactly the last message |
| Gemma4Mapper.CompleteCall | common/chat-peg-parser.cpp:1069-1089 | a complete call arrives with its name and the JSON text of its arguments |
| MinimaxM3Mapper.Mapper.FromAst | common/chat-peg-parser.cpp:1198-1203 | visiting the trees one by one gives the message of the list |
| MinimaxM3Mapper.Mapper.Visit | common/chat-peg-parser.cpp:1205-1232 | texts are collected, a tool node with a name adds its call, other nodes are entered |
| MinimaxM3Mapper.ToolExactly | common/chat-peg-parser.cpp:1218-1229 | a tool node adds a call exactly when there is a name at most three levels down |
| MinimaxM3Mapper.StreamReconstructs | common/chat-peg-parser.cpp:1198-1232 | over any growing run of parses with whole argument names the client holds exactly the last message |
| MinimaxM3Mapper.CompleteCall | common/chat-peg-parser.cpp:1218-1229 | a complete call arrives with its name and the JSON object of its parameters |
| LoraTensor.GatherRefines | convert_lora_to_gguf.py:45-56 | moves of the factors that read the right rows and columns are moves of the product |
| LoraIndexing.GetFirstRefines | convert_lora_to_gguf.py:67-76 | an index or slice of the first axis picks from the product |
| LoraIndexing.GetFirstExactly | convert_lora_to_gguf.py:67-76 | the factors stay compatible exactly when a broadcast axis is not sliced to nothing |
| LoraTuples.GetTupleExactly | convert_lora_to_gguf.py:77-112 | an accepted tuple of picks picks from the product exactly when the last two are slices and the batch slices, which A does not get, keep the axes broadcasting |
| LoraTuples.LastIntegers | convert_lora_to_gguf.py:96-112 | integers on the last two axes are accepted exactly when both are and the last batch axis left of A has the size of the rank; the result has an axis too many |
| LoraTuples.LastEllipsis | convert_lora_to_gguf.py:79-80 | an ellipsis at the end stands for all the axes that are left |
| PickMoves.SamePicksExactly | convert_lora_to_gguf.py:77-112 | two lists of picks move the same elements exactly when they leave the same shape and, unless it is empty, read the same on every axis |
| LoraTuples.EllipsisPicks | convert_lora_to_gguf.py:79-112 | any other ellipsis picks what is meant if the picks it is spread to are supported and move the same elements |
| LoraExact.EllipsisExactly | convert_lora_to_gguf.py:79-112 | and only then is it right for all factors of these shapes |
| LoraExact.CatAlwaysRight | convert_lora_to_gguf.py:248-252 | an accepted batched cat is right for all factors of these shapes exactly when its batches align, or the totals agree by accident and there is nothing to read |
| LoraWitnesses.BroadcastSlicedAway | convert_lora_to_gguf.py:67-76 | two batches with one A, sliced to incompatible factors |
| LoraWitnesses.SharedAxisNotSliced | convert_lora_to_gguf.py:96-112 | two batches with their own A, sliced in a tuple to incompatible factors |
| LoraWitnesses.IntegersAccepted | convert_lora_to_gguf.py:96-112 | two integers accepted, with one axis too many |
| LoraWitnesses.EllipsisOnTheWrongAxis | convert_lora_to_gguf.py:81-92 | an accepted ellipsis on three axes after which the second axis is sliced instead of the third |
| LoraWitnesses.EllipsisBeforeWholeSlice | convert_lora_to_gguf.py:81-92 | one that is spread over the same wrong axes and yet is right |
| LoraWitnesses.BroadcastPartsDoNotConcatenate | convert_lora_to_gguf.py:248-252 | two parts that broadcast, concatenated to incompatible factors |
| LoraWitnesses.AccidentalCatIsWrong | convert_lora_to_gguf.py:248-252 | a part without batches makes the sizes agree, and the product is another one |
| LoraWitnesses.ReshapedToAnotherSize | convert_lora_to_gguf.py:136-160 | 2 by 3 of rank 0 reshaped to 5 by 3 |
| LoraShapes.ReshapeRefines | convert_lora_to_gguf.py:136-160 | a reshape, -1 included, that succeeds reshapes the product and keeps the rank, and keeps the number of elements unless the rank is 0 |
| LoraShapes.PermuteRefines | convert_lora_to_gguf.py:168-179 | a permute that succeeds permutes the product |
| LoraShapes.TransposeRefines | convert_lora_to_gguf.py:175-176 | exchanging the factors of a matrix transposes it |
| LoraShapes.ChunkRefines | convert_lora_to_gguf.py:190-206 | a chunk of the factors is the chunk of the product, on any axis |
| LoraShapes.SplitRefines | convert_lora_to_gguf.py:190-206 | all chunks of a split, each at its place |
| LoraShapes.ChunkSizesTotal | convert_lora_to_gguf.py:190-206 | an integer chunk size cuts the whole axis |
| LoraCombine.ScaleRefines | convert_lora_to_gguf.py:211-216 | scaling the rows of B scales the rows of the product, also where torch broadcasts B to the factor's axes |
| LoraCombine.StackRefines | convert_lora_to_gguf.py:234-242 | stacked factors are the factors of the stacked products |
| LoraCombine.CatRefines | convert_lora_to_gguf.py:243-259 | concatenated factors whose batches align are the factors of the concatenated products |
| LoraCombine.CatExactly | convert_lora_to_gguf.py:248-252 | the factors of a batched cat stay compatible exactly when the batches align, or by accident when the totals agree and some part has no batch |
| LoraPrograms.OpRefines | convert_lora_to_gguf.py:58-219 | every operation on one tensor commutes with the product and keeps the rank |
| LoraPrograms.StackedRespectsSame | convert_lora_to_gguf.py:234-242 | stacks of equal tensors are equal |
| LoraPrograms.CatRespectsSame | convert_lora_to_gguf.py:243-259 | concatenations of equal tensors are equal |
| LoraPrograms.ProgramRefines | convert_lora_to_gguf.py:58-259 | every computation composed of operations, stacks and cats gives the factors of what it gives on the dense products, and keeps the rank |
| LoraPrograms.CatUndoesSplit | convert_lora_to_gguf.py:190-259 | the cat of a matrix's row split is the matrix |
| LoraAccepts.ReshapeAcceptsExactly | convert_lora_to_gguf.py:136-160 | a reshape succeeds exactly when its shape, with the value of -1 given by a product equation, has two axes, keeps the last and, unless the rank is 0, the rows of a tensor whose A is one matrix |
| LoraAccepts.PermuteAcceptsExactly | convert_lora_to_gguf.py:168-179 | a permute succeeds exactly when it names every axis once and the last stays over one matrix A, or there are two axes |
| LoraAccepts.TransposeAcceptsExactly | convert_lora_to_gguf.py:181-185 | a transpose succeeds exactly for a matrix, the same axis twice, or two axes other than the last |
| LoraAccepts.SplitAcceptsExactly | convert_lora_to_gguf.py:190-206 | a split succeeds exactly when the sizes add up to the axis |
| LoraAccepts.StackAcceptsExactly | convert_lora_to_gguf.py:234-242 | a stack succeeds exactly for at least one tensor, all of the same shapes |
| LoraAccepts.CatAcceptsExactly | convert_lora_to_gguf.py:243-259 | a cat succeeds exactly when all B, and with batches all A, agree but for the first axis; the A of matrices must be equal |
| LoraAccepts.GetFirstAcceptsExactly | convert_lora_to_gguf.py:67-76 | an index or slice succeeds exactly when the first axes of both factors allow it |
| LoraAccepts.GetTupleAcceptsExactly | convert_lora_to_gguf.py:77-112 | a tuple that keeps the last two axes succeeds exactly when each entry is in range of the product |
| LoraAccepts.ScaleAcceptsExactly | convert_lora_to_gguf.py:211-216 | row scaling succeeds exactly when the factor ends in an axis of 1 and meets the axes of B |
| LoraAccepts.SliceExactly | convert_lora_to_gguf.py:67-112 | the elements of a slice, from its first edge in steps to its last |
| LoraAccepts.PermuteMoves | convert_lora_to_gguf.py:168-179 | each axis of the result is the one named, in size and index |
| LoraRotary.UndoRotaryExactly | conversion/llama.py:175-181 | the reordering of query and key rows succeeds exactly when they divide into heads of two halves, and then every row of a head's halves is where its pair is |
| TensorMeaning.MatrixProduct | convert_lora_to_gguf.py:40-45 | an entry of the product of two matrices |
| TensorMeaning.BatchProduct | convert_lora_to_gguf.py:40-45 | the same in a batch, also where A has only one |
| TensorMeaning.ReshapeKeepsPosition | convert_lora_to_gguf.py:136-160 | a reshape keeps every element at its row-major position |
| TensorMeaning.StackedMeans | convert_lora_to_gguf.py:234-242 | the first axis of a stack says which tensor |
| TensorMeaning.CatMeans | convert_lora_to_gguf.py:243-259 | a concatenation has its parts one after the other |
| TensorMeaning.ChunkMeans | convert_lora_to_gguf.py:190-206 | a chunk begins where the sizes before it end |
| TensorMeaning.ScaledMeans | convert_lora_to_gguf.py:211-216 | scaling a matrix by a number, and by one for each row |
| Segments.SegmentizeMarkers | common/chat-auto-parser-helpers.cpp:266-296 | the loop over position, border and marker flag computes the segments |
| Segments.SegmentsConcat | common/chat-auto-parser-helpers.cpp:266-296 | the segments put together are the text |
| Segments.SegmentsWellFormed | common/chat-auto-parser-helpers.cpp:266-296 | every marker runs from an opener to its first closer |
| Segments.SegmentsOfConcat | common/chat-auto-parser-helpers.cpp:266-296 | segmenting the concatenation of a well-formed list returns the list |
| Segments.SegmentationExact | common/chat-auto-parser-helpers.cpp:266-296 | segmentation is the one well-formed list whose concatenation is the text |
| Segments.CutAfterMarker | common/chat-auto-parser-helpers.cpp:266-296 | a text cut right after a marker segments as its two halves |
| Segments.OpenersOnlyLast | common/chat-auto-parser-helpers.cpp:266-296 | only the last text may hold an opener, unclosed |
| Segments.BracketedIsMarker | common/chat-auto-parser-helpers.cpp:266-296 | text in angle or in square brackets is a marker, without its closing bracket it is text |
| DiffSplit.CommonPrefixLen | common/chat-auto-parser-helpers.cpp:66-73 | the loop finds the longest common prefix |
| DiffSplit.CommonSuffixLen | common/chat-auto-parser-helpers.cpp:75-82 | the loop finds the longest common suffix |
| DiffSplit.WalkEnds | common/chat-auto-parser-helpers.cpp:111-136 | the loop over four iterators ends, and they never cross |
| DiffSplit.CalculateDiffSplit | common/chat-auto-parser-helpers.cpp:84-204 | the whole function computes its specification |
| DiffSplit.WalkBalanced | common/chat-auto-parser-helpers.cpp:108-136 | at every turn the matched and the remaining text make up both inputs |
| DiffSplit.ConservedExactly | common/chat-auto-parser-helpers.cpp:138-204 | when the parts make up both texts, and when not, for all inputs |
| DiffSplit.ConservedWhenFlagsAgree | common/chat-auto-parser-helpers.cpp:138-204 | always when the loop ends with both sides used up or neither |
| DiffSplit.ExtraMarkerIsLost | common/chat-auto-parser-helpers.cpp:156-187 | two texts whose difference disappears |
| DiffSplit.GuardedAlwaysConserves | common/chat-auto-parser-helpers.cpp:138-160 | with the flags looked at first, nothing is ever lost |
| DiffMaximal.PlainExactly | common/chat-auto-parser-helpers.cpp:84-204 | of two texts without markers the longest common end is taken out, then the longest common start before it; a left text that begins the right one is all of the prefix |
| DiffMaximal.TextEndsApart | common/chat-auto-parser-helpers.cpp:168-180 | where text is left on both sides, the parts do not begin, or end, with the same character |
| DiffMaximal.NoPairLeft | common/chat-auto-parser-helpers.cpp:111-160 | unless one side is used up, no equal pair of segments is left at either end |
| DiffMaximal.OnlySegmentMatchesAtEnd | common/chat-auto-parser-helpers.cpp:147-155 | a single right segment that both begins and ends the left text is matched at the end |
| DiffMaximal.EqualTexts | common/chat-auto-parser-helpers.cpp:182-187 | nothing is left of two equal texts |
| Base64.Encode | common/base64.hpp:79-144 | the loop with its early exits writes the four characters of every group |
| Base64.EncodedSize | common/base64.hpp:338-341 | the encoded length is the computed size |
| Base64.SymbolReads | common/base64.hpp:344-389 | a symbol reads as its value, also under detection, which then settles on its alphabet |
| Base64.Decode | common/base64.hpp:199-244 | the loop over pending bits and alphabet yields the specified bytes or error |
| Base64.DecodeInPlace | common/base64.hpp:294-313 | decoding into the buffer being read equals decoding out of place and leaves later cells alone |
| Base64.RoundTrip | common/base64.hpp:79-244 | decoding inverts encoding, alphabet given or detected, either behaviour |
| Base64.AcceptsExactly | common/base64.hpp:199-244 | success exactly for symbols of one alphabet followed, unless loose, by pads only |
| Base64.DecodedFits | common/base64.hpp:324-327 | every decoded text fits the reserved size; each eight bits make one byte |
| Base64.MixedAlphabetsFail | common/base64.hpp:344-389 | an input with symbols of both alphabets is an error |
| Base64Bits.SymbolTable | common/base64.hpp:82-85 | the two tables of symbols |
| Base64Bits.EncodedExactly | common/base64.hpp:87-141 | each group of an encoding has the symbols of its 24 bits, and pads where the input has no byte |
| Base64Bits.GroupDecodes | common/base64.hpp:199-231 | four symbols decode to the three bytes with the same 24 bits, in any text |
| Base64Bits.TailDecodes | common/base64.hpp:199-231 | of one to three symbols at the end, every eight bits are a byte and the rest is dropped |
| GgmlReader.Hyperparameters.Load | convert_llama_ggml_to_gguf.py:59-73 | the seven fields, or the error of a short file or unknown type |
| GgmlReader.Hyperparameters.SetNFf | convert_llama_ggml_to_gguf.py:53-57 | the second dimension of the named tensor, or an error |
| GgmlReader.Vocab.Load | convert_llama_ggml_to_gguf.py:84-98 | the items appended, with or without scores, and the bytes used |
| GgmlReader.TensorObject.Load | convert_llama_ggml_to_gguf.py:110-131 | the fields of one tensor and the bytes used |
| GgmlReader.GgmlModel.ValidateHeader | convert_llama_ggml_to_gguf.py:145-166 | format and version, or which error |
| GgmlEligibility.NotConvertibleExactly | convert_llama_ggml_to_gguf.py:168-178 | loading ends in the eligibility error exactly for files whose header reads and whose type is among those refused for its format and version |
| GgmlEligibility.EligibilityGrows | convert_llama_ggml_to_gguf.py:168-201 | a GGJT file that loads still loads, as the same, with a higher version in its header |
| GgmlReader.GgmlModel.Load | convert_llama_ggml_to_gguf.py:180-201 | the object holds what the format says of the data, or the error is raised |
| GgmlExact.LoadsExactly | convert_llama_ggml_to_gguf.py:145-201 | a file loads, as given contents, exactly when it fits the description of a format: magic, version, numbers and types, lengths, alignment, and the named tensor |
| GgmlExact.HeaderErrors | convert_llama_ggml_to_gguf.py:145-166 | which header is already GGUF, and which is none of the formats |
| GgmlExact.NumberMeans | convert_llama_ggml_to_gguf.py:59-73 | a number is its four bytes, the lowest first |
| GgmlFormat.TrueSize | convert_llama_ggml_to_gguf.py:126-127 | a size that fits int64 is the product of the dimensions and the block size |
| GgmlFormat.MapIsLast | convert_llama_ggml_to_gguf.py:190-195 | a name leads to the last tensor that has it |
| GgmlWriter.WrittenFileLaid | convert_llama_ggml_to_gguf.py:145-200 | a written file is laid out as its format says |
| GgmlRoundTrip.LaidFileLoads | convert_llama_ggml_to_gguf.py:145-200 | every file so laid out loads as itself, to the last byte |
| GgmlRoundTrip.ReadInvertsWrite | convert_llama_ggml_to_gguf.py:145-200 | reading inverts writing |
| GgmlRoundTrip.RangesOrdered | convert_llama_ggml_to_gguf.py:110-131 | in every file that loads, tensor ranges are ordered, disjoint and, in GGJT, 32-aligned |
| CsvRow.ParseCsvRow | common/arg.cpp:1347-1389 | the loop with its skipping index returns the specified fields |
| CsvRow.ParseIsRead | common/arg.cpp:1347-1389 | the lookahead form equals a four-state automaton that reads one character at a time |
| CsvRow.RoundTrip | common/arg.cpp:1343-1346 | any fields survive printing and parsing, quoted or, where bare, not |
| CsvRow.BareExactly | common/arg.cpp:1354-1362 | a field may stand unquoted exactly when it has no comma and does not begin with a quote |
| CsvRow.FieldCount | common/arg.cpp:1373-1386 | one field more than there are commas outside quotes |
| CsvRow.RowsConcatenate | common/arg.cpp:1373-1379 | rows joined by a comma parse as their concatenation unless a quote is left open |
| MessageSpans.Split | common/chat.cpp:152-184 | both loops, ending by the lexicographic measure, compute the spans of the scan |
| MessageSpans.RoleOfFirstListed | common/chat.cpp:162-170 | a position takes the role of the first listed delimiter that stands there |
| MessageSpans.ScanExactly | common/chat.cpp:155-172 | with disjoint skips the matches are exactly the unskipped positions where a delimiter stands |
| MessageSpans.SplitExactly | common/chat.cpp:155-172 | for every skip map, with the skips that take effect |
| MessageSpans.NestedSkipDisablesLater | common/chat.cpp:155-161 | tokens, a delimiter and a skip map whose scan finds a message inside its last region, and does not without the region before |
| MessageSpans.SpansTile | common/chat.cpp:174-181 | spans are non-empty, contiguous, one per match, and end at the last token |
| MessageSpans.SlicesRejoin | common/chat.cpp:174-181 | their tokens are the prompt from the first match on |
| ToolResults.SortToolResultsInPlace | common/chat.cpp:2097-2158 | the loop with its write-back computes the reordering |
| ToolResults.KeyIsLastPlace | common/chat.cpp:2105-2116 | a result's key is the last place of its call's id |
| ToolResults.UnknownKey | common/chat.cpp:2143-2147 | an unknown or missing id counts as 0 |
| ToolResults.StableSortExactly | common/chat.cpp:2142-2149 | the sort is the only sorted rearrangement that leaves equal keys in order |
| ToolResults.ReorderingExactly | common/chat.cpp:2097-2158 | a permutation that moves only tool messages inside their run and sorts them by the latest call order |
| ToolResults.ResultsInCallOrder | common/chat.cpp:2097-2158 | in each maximal run the tool messages come in the order in which the latest assistant message lists their calls, those of one call as they were, and nothing else moves |
| ToolResults.SortedTwice | common/chat.cpp:2097-2158 | sorting again changes nothing |
| ToolResults.GuardsSaveWork | common/chat.cpp:2136-2137 | without an order or with one result nothing would move anyway |
| PartialStop.StringEndsWith | common/common.h:828-831 | true exactly when the text is something followed by the suffix |
| PartialStop.StringFindPartialStop | common/common.h:841-854 | the start of the longest end of the text that begins the stop word, or none |
| PartialStop.HoldBackIsSafe | common/common.h:841-854 | no occurrence in any continuation starts in what was sent |
| PartialStop.HoldBackIsTight | common/common.h:841-854 | nothing is held back that could not become an occurrence |
| PartialStop.SentOnlyGrows | common/common.h:841-854 | what was sent never has to be taken back |
| PartialStop.RunNeverSendsTheStop | common/common.h:841-854 | over any run of chunks nothing of a stop word is sent before it is recognised |

## Left out

- PegMapper.Mapper.Map: the original reads through a dangling pointer when a call event follows the removal of the active call; the model demands that this does not happen (`Undefined`) instead of giving it a meaning.
- MinimaxM3Printer.ToolArgumentsGrow: like `MinimaxM3Mapper.StreamReconstructs`, holds for trees whose argument names are complete, which the grammar guarantees by parsing names atomically.
- LoraTuples.GetTupleExactly: tensors as indices are not modelled.
- LoraCombine.CatRefines: batched parts whose batches do not align are excluded; `LoraCombine.CatExactly` and `LoraWitnesses.AccidentalCatIsWrong` say why.
- GgmlReader.TensorObject.Load: a tensor size that wraps around to a negative `int64` ends in an error of its own (`NegativeSize`), where the original goes on at an earlier offset. The fields are set once all values are known, so after an error they may differ from the original's.
- GgmlFormat.ItemAt: a score stays four bytes; no floating point.
- DiffSplit.GuardedAlwaysConserves: about a variant of the code, not the code.
- The PEG engine, its grammars, incomplete-input results and GBNF generation; parsers are abstract deterministic matchers and events come as lists.
- `optspace`, `set_tool_call_ids`, random id generation, and the server's filtering of what it sends.
- Template analysis and the per-model parser builders; the gemma4 message rewrite.
- UTF-8 validity and the JSON library beyond its string escaping; `JsonReading` reads neither surrogate pairs nor the grammar of numbers.
- Floating point, dtype casts and torch laziness; tensors hold reals.
- `reshape_as`, `view`, `swapaxes`, `to` and `contiguous`, which only forward.
- Quantisation tables and Python's table of printable characters (parameters), GGUF writing, vocabulary rewriting and metadata overrides.
- Option tables, environment, files and logging in common/arg.cpp; the rest of common/common.h.
- Delimiter tokenisation, and the 32-bit casts in `is_user_start` and `last_user_message_pos`.
