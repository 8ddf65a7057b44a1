# Verified models of the chat, conversion and codec code

Dafny models of the parts of this repository whose correctness is hardest to see from one function
body, and proofs of what they keep, undo and preserve. `dafny verify dfyconfig.toml` checks the whole
project, which depends on nothing outside this directory.

## What is modelled

**Streaming tool calls.** A reply is parsed again and again while it grows; every partial parse is mapped to
a message and the difference to the previous message is sent to the client.

- `PythonJson` is the character machine that turns Python literals into JSON. `PythonValues` defines values,
  their layout and their Python and JSON prints, independently of the machine, and proves what the machine
  does to every print. `LiteralMeaning` reads a literal back, by Python's or JSON's rules, into code units.
- `JsonText` is string escaping and the brace counter. `Mapper` is the object that visits the nodes of the
  parse tree in order and builds the message; each method is proved against `Apply`, the effect of one node, and
  `Finish`, the end of a parse. Every grammar rule adds a node without a tag; these are ignored, wherever they stand
  (`TaggedRun`), and the theorems about calls, replies and streams hold for all node lists up to them. `ToolCalls`
  and `Replies` run the mapper over whole calls and whole replies.
- `MessageDiff` computes and applies the deltas. `Streaming` proves that partial parses only ever grow.

**Marker-aware string difference.** `Segments` cuts a text into markers and text, `DiffSplit` matches the
segments of two texts from both ends and trims what is left, `DiffSplitLaws` says when the four resulting
parts rebuild the inputs.

**Low-rank tensors.** `Tensors` are row-major tensors with dense operations; `Lora` gives a pair of factors
its meaning, the batched product B @ A, and with `LoraProducts`, `LoraCat`, `LoraIndex`, `LoraKeys`, `LoraReshape`
and `LoraAlgebra` proves when each operation on factors is that operation on the product, one at a time and in every
composition.

**Codecs, splitters, allocators.** `Base64`, `Base64Laws` and `Base64Meaning`; `Csv` (row parser and `string_split`); `Spans`
(cutting a token stream at message delimiters); `Cores` (round-robin dealing of cores); `ParserOrders`
(`permute` and the orderings it accepts); `Ggml` and `GgmlTensors` (the legacy file loaders).

## What turned out false

These properties read as promises and hold only on part of the inputs. Each is stated with its exact condition, in
both directions.

- A Python literal in double quotes keeps the escape `\'`, which JSON does not have. The rewritten value is
  its JSON print exactly when no double-quoted literal contains `\'` (`NormalizePython`). A single literal keeps its
  meaning exactly when it has no such escape and no `\/`, which is two characters in Python and one in JSON
  (`LiteralMeaning`).
- A value of a visible call that is cut between a backslash and the single quote it escapes in a single-quoted literal
  makes the differ throw when the rest arrives; no other cut of a Python value does (`ValueCut`, and `CutThrows` for
  arbitrary texts). A string of a visible call makes it throw exactly when an empty piece after its first is read further
  (`StringCutThrows`).
- The arguments of a closed call are the JSON object of all its arguments exactly when no blank name stands between
  them, no string has an empty piece after its first, for which the code writes a second quote, and no value has a
  stray `\'` (`ClosedIsObject`, `StringIsJson`).
- The difference of two texts counts a segment twice when the matching loop used up one side only and a
  branch after the loop still finds its last segment at an end of the other side; `RepeatedMarkerLost` and
  `RepeatedMarkerDoubled` are two families of such inputs, `SplitRebuilds` the exact condition.
- Concatenating low-rank batches is right for all factors of the given shapes exactly when A has one batch in all, or
  every piece's factors have the same batches, or the factors fit and there are no values to get wrong
  (`CatJoinsExactly`). A broadcast A breaks it: among non-empty batches the factors then no longer fit (`CatFits`); with
  an empty one they may fit and be wrong, as for B of no batch and B of two, each with an A of one batch.
- Indexing low-rank tensors: a slice `l[lo:hi]` slices A like B, so a broadcast A loses its only batch when the slice
  starts after 0 or ends before 1, and integers other than 0 and -1 raise (`PickExactly`); in a tuple, a partial slice
  of a leading dimension where A is not broadcast leaves factors that do not fit, and integers in the last two
  dimensions raise or give a wrong shape (`TupleExactly`).
- An ellipsis in an index tuple stands for one full slice less than the tuple is long, whatever the number of
  dimensions, so the indices behind it may fall on other dimensions: `l[..., s]` slices the second of three
  (`DotsMisplaced`) and is right only if it slices nothing (`DotsSlice`); `l[...]` raises. `PlacedExactly` says which
  tuples are expanded as they are meant.
- `split` shifts a negative dimension once and passes the rest on: below minus the rank, where a tensor cannot be split,
  it may split a leading dimension all the same (`SplitCommutes`, `SplitBelow`).
- `reshape` of a tensor of rank zero accepts shapes with another number of entries (`ReshapeCommutes`,
  `ReshapeRankZero`).
- A GGML tensor whose size does not fit a signed 64-bit integer is placed wrongly (`WalkLays`), and one header
  makes the loader read the same tensor for ever (`WalkStuck`).

## Model

| member | source | states |
|---|---|---|
| PythonJson.NormalizeQuotes | common/chat-peg-parser.cpp:84-186 | the loop, with its flags, computes the recursive machine `Normalize` on every input |
| PythonJson.Branch | common/chat-peg-parser.cpp:93-183 | one pass of the loop emits and consumes exactly one step of the machine, and the two flags plus the previous character are its mode |
| PythonJson.RewriteLiteral | common/chat-peg-parser.cpp:156-180 | a word that is a prefix of True, False or None becomes the equally long prefix of its JSON spelling; otherwise one character is copied |
| PythonJson.PrefixMonotone | common/chat-peg-parser.cpp:84-186 | for all strings p and t and every mode: the image of p is a prefix of the image of p + t if and only if t completes the word or escape that p stops in |
| PythonValues.NormalizePython | common/chat-peg-parser.cpp:79-186 | the Python print of any nested value, any quotes and any white space around its parts, becomes its JSON print if and only if no double-quoted literal contains an escaped single quote |
| PythonValues.NormalizeJson | common/chat-peg-parser.cpp:79-186 | every JSON print, any white space and all of JSON's escapes, is a fixed point, and the machine is idempotent on every Python print |
| PythonValues.StreamedPrefix | common/chat-peg-parser.cpp:93-186 | the image of a cut Python print is a prefix of the image of the whole, except exactly when the cut is inside an escaped single quote of a single-quoted literal |
| PythonValues.WordImage | common/chat-peg-parser.cpp:156-180 | outside strings a word is copied, except that a prefix of True, False or None becomes the equally long prefix of its JSON spelling |
| PythonValues.PassesPlain | common/chat-peg-parser.cpp:181-183 | outside strings every other character but quotes and backslashes is copied |
| PythonValues.LoneBackslash | common/chat-peg-parser.cpp:129-131 | a backslash outside strings or at the very end is copied |
| LiteralMeaning.LiteralMeaning | common/chat-peg-parser.cpp:79-125 | the rewritten literal reads, as JSON, as the code units the original reads as in Python, if and only if it has no escaped slash and is not a double-quoted literal with an escaped single quote |
| LiteralMeaning.EscapeMeaning | common/chat-peg-parser.cpp:71-77 | the escaped text of any string, read as a JSON string by an independent reader, denotes exactly that string |
| LiteralMeaning.EscapeForm | common/chat-peg-parser.cpp:71-77 | only quotes, backslashes and control characters are escaped, in two characters if JSON has such an escape, in lower-case hexadecimal digits otherwise |
| JsonText.JsonBraceDepth | common/chat-peg-parser.cpp:42-68 | the loop computes the brace balance outside strings |
| JsonText.EscapeNeutral | common/chat-peg-parser.cpp:71-77 | the escaped text of any string leaves the brace counter inside the same string with the same depth |
| Text.TrimBoth | common/chat-peg-parser.cpp:12-38 | trimming a name drops one white-space character in front and all behind, in the C locale's sense of white space |
| Mapper.PegMapper.AppendToTarget | common/chat-peg-parser.cpp:276-278 | arguments go to the buffer until the current call has a name, then to the call |
| Mapper.PegMapper.MapName | common/chat-peg-parser.cpp:358-373 | the new state when a name arrives: buffered arguments move to the call, which becomes visible in the message |
| Mapper.NamedExactly | common/chat-peg-parser.cpp:358-373 | a name lists the call with the buffered arguments, its own or an opening brace, empties the buffer and changes nothing else |
| Mapper.PegMapper.MapClose | common/chat-peg-parser.cpp:433-456 | the new state at the end of a call: buffer flushed, quote and braces closed, unnamed pending call dropped |
| Mapper.ClosedExactly | common/chat-peg-parser.cpp:433-456 | a closing completes the arguments with the buffer, the quote and as many braces as are open, and lists or forgets a pending call |
| Mapper.UnquoteExactly | common/chat-peg-parser.cpp:350-356 | an id loses the white space behind it and a pair of enclosing quotes, and nothing else |
| Mapper.PegMapper.Map | common/chat-peg-parser.cpp:315-457 | the whole new state after any node, in every state |
| Mapper.PegMapper.FlushPending | common/chat-peg-parser.cpp:289-298 | the message after a pending named call is flushed |
| Mapper.PegMapper.DropBlankReasoning | common/chat-peg-parser.cpp:301-312 | reasoning made of white space only is cleared, anything else is kept |
| Mapper.DropBlankExactly | common/chat-peg-parser.cpp:301-312 | reasoning of spaces, line feeds, carriage returns and tabs only is dropped, any other is kept |
| Mapper.PegMapper.FromAst | common/chat-peg-parser.cpp:284-313 | mapping a whole tree gives the message of running its nodes in order |
| Mapper.TaggedRun | common/peg-parser.cpp:738-762 | the nodes of grammar rules, which have no tag, have no effect in any number and at any place |
| ToolCalls.TaggedCall | common/chat-peg-parser.cpp:342-456 | from every state, the nodes of a call with any arguments, strings in any pieces, its name anywhere among them and untagged rule nodes anywhere add exactly one call, with its name, last id and closed arguments |
| ToolCalls.ClosedIsObject | common/chat-peg-parser.cpp:358-447 | those arguments are the JSON object of all arguments in order if and only if no blank name stands between arguments, no string has an empty piece after its first and no value has a stray escaped quote; its keys and strings denote the trimmed names and the joined pieces |
| ToolCalls.StringIsJson | common/chat-peg-parser.cpp:403-431 | what the nodes of a string write is a JSON string that denotes the joined pieces, and the very one JSON dumping writes, if and only if no piece after the first is empty |
| ToolCalls.StringStep | common/chat-peg-parser.cpp:403-431 | in every state inside a call, the pieces and the closing of a string append exactly that text and leave no quote open |
| ToolCalls.ArgStep | common/chat-peg-parser.cpp:384-431 | one argument, string or other value, in pieces and with untagged rule nodes anywhere, such as those below its value, appends exactly its entry and leaves no quote open |
| Replies.JsonToolBlock | common/chat-peg-parser.cpp:375-382 | a call with its arguments as one JSON object, white space behind it and the nodes of that object's rules anywhere, keeps that object unchanged, with the name before or after it |
| Replies.UnnamedToolBlock | common/chat-peg-parser.cpp:448-455 | a call that never gets a name, untagged rule nodes anywhere, leaves the message unchanged |
| Replies.ReplyIsMapped | common/chat-peg-parser.cpp:284-457 | any sequence of text, reasoning and calls, with untagged rule nodes anywhere, is mapped to exactly the message it stands for, in order; only blank reasoning is dropped |
| MessageDiff.ComputeDiffs | common/chat.cpp:236-302 | which exception is thrown, in terms of the two messages alone, and otherwise every delta of the result: appended reasoning, appended content, the appended arguments of the last shared call with name and id only if one of them is new, then new calls whole |
| MessageDiff.ThrowsExactly | common/chat.cpp:58-71 | the differ throws exactly when a text or the last call is not continued or calls disappear, and which exception |
| MessageDiff.DeltasReport | common/chat.cpp:249-299 | the number, order and content of the deltas, stated without the functions that compute them |
| MessageDiff.DiffsRebuild | common/chat.cpp:236-302 | differences exist and applying them gives the new message if and only if the new message extends the old one |
| MessageDiff.ChainRebuild | common/chat.cpp:236-302 | over any growing run of messages no step throws and all deltas together take the first message to the last |
| Streaming.StepExtends | common/chat-peg-parser.cpp:315-457 | one node extends the message if and only if it respects what is already visible of the current call |
| Streaming.PrefixExtends | common/chat-peg-parser.cpp:284-457 | the message of any prefix of a well-formed node sequence is extended by the message of the whole |
| Streaming.StreamedExtends | common/chat-peg-parser.cpp:284-457 | the same for an earlier parse that ends inside the text of a node, a JSON argument object included, inside argument regions that are still growing, and with untagged rule nodes anywhere in either |
| Streaming.CutThrows | common/chat.cpp:58-71 | for a value of a visible call cut anywhere and read further, the differ throws if and only if the rest does not complete the word or escape the cut interrupted |
| Streaming.StringCutThrows | common/chat.cpp:58-71 | for a piece of a string of a visible call cut anywhere and read further, the differ throws if and only if the string was open and the cut left nothing of the piece |
| Streaming.StreamingSafe | common/chat.cpp:236-302 | over all partial parses of a growing reply, cut inside nodes and growing regions, untagged rule nodes anywhere, no difference throws and the deltas, applied to the empty message, give the final message |
| Replies.ReplyWellFormed | common/chat-peg-parser.cpp:315-457 | every reply whose calls are named is such a node sequence |
| Replies.NodesStream | common/chat-peg-parser.cpp:284-457 | receiving it node by node is one such stream of partial parses |
| Replies.ValueCut | common/chat.cpp:58-71 | for a Python value of a visible call cut at any character, the differ throws when the whole value arrives if and only if the cut is inside an escaped single quote of a single-quoted literal |
| Replies.ReplyStreams | common/chat-peg-parser.cpp:284-457 | over all partial parses of a reply, JSON calls with the nodes of their rules included, no difference throws and the deltas rebuild exactly the message the reply stands for |
| ParserOrders.Permuter.RemainingOf | common/chat-peg-parser.cpp:249-271 | the memoised construction returns the rule of the plain recursion and keeps every cached rule right |
| ParserOrders.Permute | common/chat-peg-parser.cpp:239-274 | the parser built for any number of parsers, with both early returns |
| ParserOrders.BuildMatches | common/chat-peg-parser.cpp:252-271 | the paths of the rule of a bit mask are exactly the orderings of its set bits |
| ParserOrders.AlternativesAscend | common/chat-peg-parser.cpp:258-266 | a rule tries its alternatives in ascending order of their first parser, each followed by the rule of the rest |
| ParserOrders.BuildNamed | common/chat-peg-parser.cpp:252-271 | every rule named after a mask, wherever it occurs, is the one built for that mask |
| ParserOrders.PermutedMatches | common/chat-peg-parser.cpp:239-274 | for two to six parsers a path matches if and only if it uses every parser exactly once; otherwise if and only if it is the given order |
| Segments.SegmentizeMarkers | common/chat-auto-parser-helpers.cpp:266-296 | the loop returns a valid segmentation whose segments join to the input |
| Segments.ValidUnique | common/chat-auto-parser-helpers.cpp:266-296 | a text has only one valid segmentation, so every segment list of that form is the result on its own join |
| Segments.MarkerExactly | common/chat-auto-parser-helpers.cpp:266-296 | markers are `<...>` without `>` inside and `[...]` without `]` inside, and nothing else |
| DiffSplit.CommonPrefixLen | common/chat-auto-parser-helpers.cpp:66-73 | the loop finds the longest common prefix |
| DiffSplit.CommonSuffixLen | common/chat-auto-parser-helpers.cpp:75-82 | the loop finds the longest common suffix |
| DiffSplit.MatchEnds | common/chat-auto-parser-helpers.cpp:99-136 | the two-ended loop, with inclusive iterators and both flags, reaches the state of the recursive form |
| DiffSplit.SettleEnds | common/chat-auto-parser-helpers.cpp:138-162 | the branches after the loop compute `Settle` |
| DiffSplit.RepairParts | common/chat-auto-parser-helpers.cpp:181-200 | the no-difference case and the prefix repair compute `Repair` |
| DiffSplit.CalculateDiffSplit | common/chat-auto-parser-helpers.cpp:84-204 | the whole computation, empty inputs and final repairs included, is `SplitOf` |
| DiffSplitLaws.SplitRebuilds | common/chat-auto-parser-helpers.cpp:84-204 | prefix + left + suffix and prefix + right + suffix are the inputs if and only if no segment was counted twice or the last repair applies |
| DiffSplitLaws.SplitSeparates | common/chat-auto-parser-helpers.cpp:164-190 | for all inputs, when both differing parts are non-empty no text they share at either end is left in them, up to the brackets of markers |
| DiffSplitLaws.SplitSame | common/chat-auto-parser-helpers.cpp:181-185 | equal inputs have no difference and are all prefix |
| DiffSplitLaws.SharedAtEnd | common/chat-auto-parser-helpers.cpp:138-157 | a segment that either end of the longer text could match is matched at its end, whichever side is longer |
| DiffSplitLaws.RepeatedMarkerLost | common/chat-auto-parser-helpers.cpp:158-162 | repeating the last of two markers is reported as no difference, for all markers |
| DiffSplitLaws.RepeatedMarkerDoubled | common/chat-auto-parser-helpers.cpp:138-146 | with a further marker between, the inputs are not rebuilt, for all markers |
| Lora.NarrowCommutes | convert_lora_to_gguf.py:190-206 | taking a range of any dimension of the factors takes that range of the product |
| Lora.SelectCommutes | convert_lora_to_gguf.py:98-112 | an entry of a leading dimension, with A indexed modulo its size, is that entry of the product |
| Lora.PermuteCommutes | convert_lora_to_gguf.py:168-179 | every permutation the code accepts, negative dimensions included, permutes the product; for matrices the transpose swaps and transposes the factors |
| Lora.PermuteAccepts | convert_lora_to_gguf.py:168-179 | it returns exactly if the dimensions name all axes and the last stays with an A that is not batched, or a matrix is transposed |
| Lora.AxesExactly | convert_lora_to_gguf.py:168-172 | which dimension lists name all axes, negative ones counted from the end |
| LoraProducts.TimesCommutes | convert_lora_to_gguf.py:211-219 | scaling B by a number or by a multiplier with last dimension 1, broadcast either way, scales the product |
| LoraProducts.ScalesExactly | convert_lora_to_gguf.py:211-216 | which multipliers are accepted: aligned with the last dimensions of B, the very last being 1 |
| LoraProducts.StackCommutes | convert_lora_to_gguf.py:234-242 | stacking the factors stacks the products |
| LoraProducts.CatRow | convert_lora_to_gguf.py:248-252 | in a concatenation row j of piece k follows all rows of the pieces before it |
| LoraCat.CatJoinsExactly | convert_lora_to_gguf.py:248-252 | concatenating batches, empty ones included, gives factors with a product that is the concatenation of the products, for all factors of the same shapes, if and only if A has one batch in all, or every piece has as many in A as in B, or the factors fit and there are no values |
| LoraCat.CatPairValid | convert_lora_to_gguf.py:248-252 | for all batches, empty ones included, the concatenated factors fit each other if and only if A has one batch in all or as many as B |
| LoraCat.CatFits | convert_lora_to_gguf.py:248-252 | if no batch is empty, they fit if and only if there is one piece or all pieces' factors have the same batches |
| LoraProducts.CatColumnsCommutes | convert_lora_to_gguf.py:253-257 | concatenating the columns of matrices that share A concatenates the products |
| LoraReshape.ReshapeCommutes | convert_lora_to_gguf.py:136-160 | every accepted target shape, -1 expanded, is the shape of the result, which is the row-major reshape of the product whenever the shape has as many entries, and it always has unless the rank is zero |
| LoraReshape.ReshapeAccepts | convert_lora_to_gguf.py:142-160 | which target shapes are accepted, exactly: number of dimensions, -1 entries, row size and element counts |
| LoraReshape.ExpandedEntries | convert_lora_to_gguf.py:146-151 | every -1 becomes the number of entries divided by the product of the other dimensions, which stay |
| LoraReshape.ReshapeRankZero | convert_lora_to_gguf.py:155-160 | with rank zero a matrix is reshaped to any number of columns |
| LoraAlgebra.SplitCommutes | convert_lora_to_gguf.py:190-206 | for sizes or a chunk size, part k of the split is part k of the split product, lies where `IsPart` says, and exists when the other does, for every dimension not below minus the rank of the tensor; below, the product cannot be split |
| LoraAlgebra.SplitParts | convert_lora_to_gguf.py:190-206 | which parts a split has, and entry by entry where they start: after the listed sizes before them, or at multiples of the chunk size with only the last part shorter |
| LoraAlgebra.SplitBelow | convert_lora_to_gguf.py:192-206 | below, the code splits a leading dimension all the same, counted from the end once more, or raises |
| LoraIndex.TupleExactly | convert_lora_to_gguf.py:98-112 | for every tuple of indices and slices, indexing the factors gives the indexed product if and only if the product can be indexed, the last two indices are slices, and slices of leading dimensions are full wherever A is not broadcast |
| LoraIndex.PickExactly | convert_lora_to_gguf.py:66-76 | for every single index or slice, the same if and only if the product can be indexed and A has the batches of B, or the index is 0 or -1, or the slice keeps A's only batch or takes nothing |
| LoraIndex.ItemsAt | convert_lora_to_gguf.py:98-112 | entry by entry what indexing a tensor with integers and slices gives, negative and excessive bounds included |
| LoraIndex.ItemsSized | convert_lora_to_gguf.py:98-112 | integers drop their dimension, slices keep as many entries as they take |
| LoraKeys.PlacedExactly | convert_lora_to_gguf.py:77-96 | the script expands a tuple with at most one ellipsis to the full tuple it means if and only if it has an index and the ellipsis is last or missing, or half of the dimensions are indexed, or only full slices follow it, or there are too many indices |
| LoraKeys.DotsMisplaced | convert_lora_to_gguf.py:79-93 | of three dimensions, the index behind an ellipsis falls on the second |
| LoraKeys.DotsSlice | convert_lora_to_gguf.py:79-112 | of three dimensions, a slice behind an ellipsis gives the indexed product if and only if it takes both last dimensions whole |
| LoraKeys.KeysExactly | convert_lora_to_gguf.py:77-112 | for tuples expanded as they are meant, ellipses and missing dimensions included, indexing the factors gives the indexed product exactly when that holds for the full tuple |
| LoraAlgebra.AlgebraCommutes | convert_lora_to_gguf.py:58-264 | every finite composition of operations on factors that the code accepts, indexing and concatenation as far as they are right, stands for the same composition of dense operations on products |
| Spans.Split | common/chat.cpp:122-154 | spans start exactly at the unskipped positions where some delimiter's tokens stand, with the role of the first listed such delimiter, each reaching to the next or to the end; regions from the first overlapping one on are ignored |
| Spans.Scan | common/chat.cpp:125-141 | the scan terminates and finds exactly those positions in order |
| Spans.RoleAtFirst | common/chat.cpp:132-140 | the scan over the delimiters gives the role of the first listed one whose tokens stand at a position, and none exactly when none does |
| Spans.SplitUnique | common/chat.cpp:122-154 | a stream has only one such list of spans |
| Spans.Honoured | common/chat.cpp:125-130 | all skip regions are honoured if and only if they are disjoint, otherwise those before the first overlap |
| Base64.Encode | common/base64.hpp:80-144 | the loop writes the groups of its input in order |
| Base64.EncodeGroup | common/base64.hpp:99-141 | one pass reads up to three bytes and writes four characters, padding included |
| Base64.Decode | common/base64.hpp:200-244 | the loop computes `Decoded`, with alphabet detection, padding check and every error; which texts are accepted and what they denote is `DecodedAccepts` and `DecodedBits` |
| Base64.DecodeInPlace | common/base64.hpp:294-313 | decoding over the input gives what decoding elsewhere gives, leaves the tail untouched, and never overwrites unread input |
| Base64Laws.EncodedSize | common/base64.hpp:338-341 | an encoding is exactly as long as announced |
| Base64Laws.AnnouncedSizes | common/base64.hpp:324-341 | the announced sizes are the least whole groups of four characters and of three bytes |
| Base64Laws.DecodedLength | common/base64.hpp:324-327 | a decoded text has three bytes for four characters before the first pad, rounded down, and fits the announced buffer |
| Base64Laws.RoundTrip | common/base64.hpp:80-244 | decoding an encoding returns the bytes, for every byte sequence and alphabet, also under detection |
| Base64Laws.AutoIsEither | common/base64.hpp:344-389 | detection accepts exactly what one of the two alphabets accepts, with the same bytes |
| Base64Laws.MixedRejected | common/base64.hpp:344-389 | a text that mixes the two alphabets before the padding is rejected under every setting |
| Base64Meaning.DecodedAccepts | common/base64.hpp:200-389 | a text is decoded if and only if all characters before the first `=` are of one alphabet the setting admits and, unless loose, only `=` follows |
| Base64Meaning.DecodedBits | common/base64.hpp:200-389 | the decoded bytes are the characters' six bits each in order, without the last bits that fill no byte |
| Base64Meaning.EncodedBits | common/base64.hpp:80-144 | the encoded characters are the bits of the bytes in order, then zeros up to a whole character |
| Csv.ParseCsvRow | common/arg.cpp:1362-1404 | the loop computes `Row` |
| Csv.RowRoundTrip | common/arg.cpp:1358-1404 | parsing inverts a printer that doubles quotes, for any row and any choice of fields to quote, if and only if every unquoted field has no comma and no quote at its start (section 2 of RFC 4180) |
| Csv.AfterQuotes | common/arg.cpp:1370-1395 | text behind a closing quote belongs to the field, up to the next comma |
| Csv.UnclosedRow | common/arg.cpp:1370-1401 | a quote that is never closed takes the rest of the row |
| Csv.StringSplit | common/common.h:867-881 | the parts hold no delimiter and join to the input |
| Csv.SplitUnique | common/common.h:867-881 | there is only one such list of parts |
| Csv.ParseIsSplit | common/arg.cpp:1362-1404 | parsing a row is splitting it on commas if and only if no part starts with a quote, in particular without quotes |
| Cores.FirstCpus | common/cpu-topo-fork.cpp:97-99 | the lowest CPU of every sibling set, or every logical CPU |
| Cores.DealCores | common/cpu-topo-fork.cpp:101-108 | filtering and dealing computes the round-robin order of the kept cores |
| Cores.DealingConserves | common/cpu-topo-fork.cpp:101-108 | with disjoint dies the order holds every core exactly once, each die's in its own order, and nothing else |
| Cores.DealingIsFair | common/cpu-topo-fork.cpp:104-108 | in every prefix each die has given its leading cores and none is more than one core behind another, or behind a later one at all, unless it is exhausted |
| Cores.OneCpuPerCore | common/cpu-topo-fork.cpp:96-108 | of each physical core the order has exactly the lowest CPU, once, if that CPU is on a die |
| Ggml.Vocab.Load | convert_llama_ggml_to_gguf.py:84-98 | the items appended, the distance returned and every error |
| Ggml.ItemExactly | convert_llama_ggml_to_gguf.py:86-97 | exactly which items are read, the text and score taken from the file, and which error is raised otherwise |
| Ggml.VocabRoundTrip | convert_llama_ggml_to_gguf.py:84-98 | the loader inverts the file layout: it returns the printed items and stops right after them |
| GgmlTensors.TensorReader.Load | convert_llama_ggml_to_gguf.py:110-131 | the fields filled and the distance returned, in 64-bit arithmetic, and every error |
| GgmlTensors.LoadExactly | convert_llama_ggml_to_gguf.py:110-119 | exactly which tensor headers are read, and which error is raised otherwise, in the order of the checks |
| GgmlTensors.TensorRead | convert_llama_ggml_to_gguf.py:110-127 | a written header is read back, and its data starts at the least multiple of 32 not below its end when padded, at its end otherwise |
| GgmlTensors.CountExact | convert_llama_ggml_to_gguf.py:125-128 | the recorded length is the true length if and only if the product of dimensions and block size is below 2^63 |
| GgmlTensors.LoadTensors | convert_llama_ggml_to_gguf.py:187-191 | the loop over reader objects, watched for any number of rounds, performs the walk |
| GgmlTensors.WalkLays | convert_llama_ggml_to_gguf.py:187-196 | recorded extents are in file order, of their true length, placed where their own header ends or, in padded files, at the least multiple of 32 from there, and the offsets add up, if and only if the size of every tensor read fits 64 bits |
| GgmlTensors.LaidDisjoint | convert_llama_ggml_to_gguf.py:187-191 | such extents are pairwise disjoint, with room for a header between them |
| GgmlTensors.WalkEnds | convert_llama_ggml_to_gguf.py:187-191 | while sizes fit, the loop ends within one round per twelve bytes |
| GgmlTensors.WalkStuck | convert_llama_ggml_to_gguf.py:110-131 | one header whose size wraps to minus 32 bytes is read for ever |

## Left out

- GgmlTensors.LoadTensors: watches the loop for a given number of rounds, because the loop need not end; `WalkEnds` says when it does.
- GgmlTensors.WalkLays: assumes a file of at most 2^62 bytes and NumPy's default 64-bit integers.
- Streaming.StreamingSafe: untagged nodes aside, each partial parse must be a prefix of the next up to growing argument regions and a cut last node, and must not end in an empty piece of a string that is already open; that the grammar engine delivers such parses is not modelled.
- PythonValues.NormalizePython: values use only the escapes JSON has and the escaped single quote; Python's other escapes and string prefixes are copied by the machine and have no JSON print.
- LoraKeys.PlacedExactly: tuples with more than one ellipsis have no agreed meaning; the model only gives what the script makes of them.
- LoraIndex.TupleExactly: tensors and steps as indices are not modelled.
- LoraAlgebra.SplitBelow: the two dimensions next below minus the rank, where the chunks cut the rank dimension of a factor, are in the model, but what still fits there is not stated.
- LoraAlgebra.AlgebraCommutes: `to`, `contiguous` and dtype changes are not modelled.
- Spans.Split: delimiters are given as tokens; tokenising them is not modelled.
- Strings of the chat model are sequences of characters, not bytes: invalid UTF-8, on which JSON dumping throws, and white space or letters outside ASCII are not modelled.
- `current_tool` is a cursor to the pending or the last call, not a pointer; pointer invalidation is not modelled.
- Tensors hold exact integers; floating point, dtypes, laziness and devices are not modelled.
- Bit masks and shifts are arithmetic on integers; widths of 32 bits are not exceeded because at most six parsers are permuted.
- The grammar engine, rule generation and Jinja templates: only the nodes they deliver are modelled.
- The Gemma and MiniMax mappers and parameter-key parsing in common/chat-peg-parser.cpp: separate translators beside the general one.
- `until_common_prefix`, `after_common_suffix` and `prune_whitespace_segments`: searches and filters on top of the modelled functions.
- `set_tool_call_ids`, role conversions and the input and prompt containers of common/chat.cpp and common/chat.h: easy members.
- GGML hyperparameters, header versions, conversion checks and GGUF writing; reading operating-system topology files, probing and pinning; the option table of common/arg.cpp.
