# sandblaster, modelled in Dafny

sandblaster is a falling-sand simulator for Android. A rectangular grid
of cells holds particles of elements such as sand, water or fire. Every
tick the engine does three things:

- It re-asserts the sources, which are cells that keep emitting an element.
- It applies transmutation rules: an agent particle turns a neighbouring target into a product.
- It lets particles decay, slide, sink and rise by density.

The whole world can be saved as a compact binary snapshot, kept on a
byte-budgeted undo stack, wrapped in Base64, or written as XML. A C++ port
of the engine, reached through JNI, reads the same element-table bytes
and runs its own tick.

This project models that core and proves properties of it. Each module
follows one source file.

- `Bytes`, `JavaData`, `Wrappers`, `Draws`: the machine words, the Java data streams, null and exceptions, and the random draws that the rest builds on. Draws are an input stream of the model.
- `Catalog` (Element.java): elements, weighted product sets, transmutation rules and their binary codec.
- `Table` (ElementTable.java): the ordinal-numbered element table, its N×N rule matrix and its codec.
- `BaseEngine` (BaseSandBox.java) and `Engine` (SandBox.java): the grid engine, as classes over two-dimensional arrays. It covers clearing, sources, `setParticle` with the splice of the per-row occupancy index, `swap`, and the whole `update` tick.
- `Occupancy`: the occupancy index of one row, and what the splice keeps.
- `SandState`: the snapshot format of `SandBox.write`/`read`, with its round trip and the meaning of `equals`.
- `Base64` (Base64.java) and `Undo` (UndoStack.java): the encoder and decoder, and the undo stack with its codec.
- `XmlSnapshot` (XmlSnapshot.java): the run-length row packing and the attribute and colour helpers.
- `SandElement` (sand/Element.java): the first-generation element with its name-keyed rules.
- `NativeStream`, `NativeList`, `NativeGrid`, `NativeTable` and `NativeSandbox` (jni/sandblaster.cc): the native byte reader, linked list, guarded grid, element-table reader, and `Sandbox` with `SetParticle`, `Swap` and `Iterate`.

Some places where the code does not do what its comments or the design
say:

- **Occupancy after a removal.** The class comment of `SandBox` says each
  row's `leftNeighbors`/`rightNeighbors` give the nearest occupied column
  on each side. `setParticle` keeps that while it only adds particles.
  Removing one leaves the two neighbouring particles pointing at the
  now-empty column (`Occupancy.RemovalLeavesStalePointer`). The model
  proves the weaker invariant the code does keep, `Occupancy.Sound`. It
  also proves that this is enough for the row walks of `update` and `write`
  to visit every particle in order (`Occupancy.WalkVisitsParticles`).
- **Native `Swap`.** The native `Swap` tests `y2 >= h` where `y1 >= h` is
  evidently meant (jni/sandblaster.cc:577). The model keeps the code as
  written. Its contract states what then happens to an out-of-range `y1`.
- **`GetElementById`.** It takes a `jchar` but compares it with the `jshort`
  read for the id, so ids of 0x8000 and above are never found.
- **XML letters.** The XML writer's letters `'A' + ordinal` wrap at 16 bits,
  so ordinals of 0xFFED and above collide with `.` or with smaller
  letters. The packing contract is stated for rows whose letters do not
  collide.
- **`SandBox.equals`.** It compares ages and tick stamps, but the
  snapshot holds them only for occupied cells. A box therefore equals its
  own read-back copy exactly when every empty cell has zero age and
  stamps (`SandState.CopyEqualsIffClean`). A cell that a particle has left
  keeps the stamps `setParticle` gave it.

## Model

| member | source | states |
|---|---|---|
| Base64.AlphabetIsRfc4648 | src/com/loganh/sandblaster/Base64.java:5 | the encoder's alphabet is that of table 1 in section 4 of RFC 4648: capitals, small letters, digits, `+`, `/` |
| Base64.IndexOf | src/com/loganh/sandblaster/Base64.java:64 | `ALPHABET.indexOf(c)` is -1 or the one position whose character is `c` |
| Base64.Encode | src/com/loganh/sandblaster/Base64.java:8-41 | the shift-and-flush loop returns exactly `Encoded(data, lineLength)`: wrapped complete groups, then the padded tail |
| Base64.Emit | src/com/loganh/sandblaster/Base64.java:15-23 | a flushed word appends its characters after a newline exactly when the column would pass the line length |
| Base64.Flush | src/com/loganh/sandblaster/Base64.java:13-24 | flushing the word of the third byte extends the wrapped output by that group |
| Base64.WordFields | src/com/loganh/sandblaster/Base64.java:19-22 | the shifts and masks of the 24-bit word give the four 6-bit fields of the group, high bits first |
| Base64.PaddedOfWord | src/com/loganh/sandblaster/Base64.java:27-38 | a tail of one or two bytes, shifted up to a full word, gives two or three characters and `=` padding |
| Base64.TailOfOne | src/com/loganh/sandblaster/Base64.java:31-37 | a one-byte tail encodes as two characters and `==` |
| Base64.TailOfTwo | src/com/loganh/sandblaster/Base64.java:31-35 | a two-byte tail encodes as three characters and `=` |
| Base64.Decode | src/com/loganh/sandblaster/Base64.java:55-88 | the buffer loop returns exactly `Decoded(s)`, and never more than `3/4` of the input length, so the output array never overflows |
| Base64.Feed | src/com/loganh/sandblaster/Base64.java:60-80 | one character: `=` buffers -1, an alphabet character its value, anything else nothing; a full buffer is unpacked and emptied |
| Base64.Unpack | src/com/loganh/sandblaster/Base64.java:69-79 | a full buffer yields no byte when either of its first two symbols is `=`, else one more byte per symbol up to the first `=` |
| Base64.Room | src/com/loganh/sandblaster/Base64.java:56 | the array of `length * 3 / 4` bytes leaves room for three bytes per four characters, less at most one |
| Base64.QuartetsBound | src/com/loganh/sandblaster/Base64.java:69-78 | at most three bytes come out of every four symbols |
| Base64.SymbolsAppend | src/com/loganh/sandblaster/Base64.java:60-68 | the symbols collected from two strings put together are those of each, in order |
| Base64.SkipsOthers | src/com/loganh/sandblaster/Base64.java:60-68 | inserting any character outside the alphabet other than `=` (a newline, say) leaves the decoded bytes unchanged |
| Base64.GroupDecodes | src/com/loganh/sandblaster/Base64.java:70-76 | the four characters of a complete group decode to its three bytes |
| Base64.Rejoin | src/com/loganh/sandblaster/Base64.java:71-75 | the decoder's shifts and masks put the four 6-bit fields back together into the three bytes |
| Base64.PaddedDecodes | src/com/loganh/sandblaster/Base64.java:70-76 | a padded tail decodes to its one or two bytes |
| Base64.LinesDecode | src/com/loganh/sandblaster/Base64.java:55-81 | the wrapped complete groups decode back to their bytes, in whole groups of four symbols |
| Base64.RoundTrip | src/com/loganh/sandblaster/Base64.java:8-88 | `decode(encode(data, lineLength)) == data` for every byte array and every line length |
| Base64.TailRoundTrip | src/com/loganh/sandblaster/Base64.java:27-39 | the round trip holds when the data ends in an incomplete group |
| Base64.EncodedFits | src/com/loganh/sandblaster/Base64.java:15-18 | with a line length of at least 4 (the default is 76), no line of the encoding is longer than the line length |
| Base64.LinesFit | src/com/loganh/sandblaster/Base64.java:12-26 | the wrapped complete groups keep every line within the length and end at the tracked column |
| Base64.EncodedLength | src/com/loganh/sandblaster/Base64.java:8-41 | newlines aside, the encoding has four characters per started group of three bytes |
| Base64.TailLength | src/com/loganh/sandblaster/Base64.java:27-39 | newlines aside, data ending in an incomplete group gives four characters per group, its tail included |
| BaseEngine.BaseSandBox.constructor | src/com/loganh/sandblaster/BaseSandBox.java:74-78 | the box takes the given dimensions and starts cleared |
| BaseEngine.BaseSandBox.Clear | src/com/loganh/sandblaster/BaseSandBox.java:80-90 | every cell empty with age and stamps 0, every pixel 0, the tick counter at -1, and no sources |
| BaseEngine.BaseSandBox.AddSource | src/com/loganh/sandblaster/BaseSandBox.java:100-108 | a null element removes the point's source; a point outside the box changes nothing; otherwise the point's source becomes the element and no other source changes |
| BaseEngine.BaseSandBox.RemoveSource | src/com/loganh/sandblaster/BaseSandBox.java:110-114 | with a map, the point loses its source and nothing else changes; without one, nothing happens |
| BaseEngine.BaseSandBox.GetSources | src/com/loganh/sandblaster/BaseSandBox.java:116-123 | one entry per source, each carrying its point and element, and no other entries |
| Undo.EvictDropsFewestOldest | src/com/loganh/sandblaster/UndoStack.java:38-41 | the eviction loop drops exactly the fewest oldest snapshots that bring the count within budget |
| Undo.EvictKeepsSlack | src/com/loganh/sandblaster/UndoStack.java:38-41 | eviction keeps the gap between the running count and the bytes held |
| Undo.EvictFits | src/com/loganh/sandblaster/UndoStack.java:38-41 | when that gap is within budget, eviction ends within budget rather than running out of items |
| Undo.EvictKeepsNewest | src/com/loganh/sandblaster/UndoStack.java:35-41 | the snapshot just pushed is the last one evicted: whatever survives ends with it |
| Undo.OversizedEmpties | src/com/loganh/sandblaster/UndoStack.java:34-41 | a snapshot larger than the whole budget, pushed when the count is exact, empties the stack and zeroes the count |
| Undo.Fill | src/com/loganh/sandblaster/UndoStack.java:82-83 | `in.read(item)` fills as many bytes as the stream still holds, up to the array length, and leaves the rest zero |
| Undo.ReadItem | src/com/loganh/sandblaster/UndoStack.java:82-83 | a missing length is an end of stream, a negative one a failed allocation, otherwise an array of that length filled from the stream |
| Undo.ReadItemBack | src/com/loganh/sandblaster/UndoStack.java:72-73 | an item written by `write` is read back whole, with the stream positioned after it |
| Undo.ReadItemsEncoded | src/com/loganh/sandblaster/UndoStack.java:81-85 | items that fit the budget together are read back and pushed without eviction |
| Undo.ReadCount | src/com/loganh/sandblaster/UndoStack.java:79 | the count byte comes back as the number of items `write` wrote, when it is below 128 |
| Undo.RoundTrip | src/com/loganh/sandblaster/UndoStack.java:69-87 | `read(write(s))` restores the snapshots in order with the count equal to their bytes, when there are fewer than 128 and they fit the default budget |
| Undo.UndoStack.constructor | src/com/loganh/sandblaster/UndoStack.java:19-23 | an empty stack with a zero count and the given budget |
| Undo.UndoStack.Default | src/com/loganh/sandblaster/UndoStack.java:15-17 | the same with the default budget of 150000 bytes |
| Undo.UndoStack.Push | src/com/loganh/sandblaster/UndoStack.java:34-44 | the new state is the eviction of the appended stack; the count ends within budget; the answer is whether any snapshot is left, and then the newest is the one pushed; it throws only for a negative budget, leaving an empty stack |
| Undo.UndoStack.Pop | src/com/loganh/sandblaster/UndoStack.java:46-58 | nothing from an empty stack; otherwise the newest snapshot comes off and is returned, and the count is kept |
| Undo.UndoStack.Clear | src/com/loganh/sandblaster/UndoStack.java:60-63 | no snapshots and a zero count |
| Undo.UndoStack.IsEmpty | src/com/loganh/sandblaster/UndoStack.java:65-67 | true exactly when no snapshot is held |
| Undo.UndoStack.Write | src/com/loganh/sandblaster/UndoStack.java:69-75 | the count byte, then each snapshot's length and bytes, oldest first |
| Undo.UndoStack.Read | src/com/loganh/sandblaster/UndoStack.java:77-87 | a fresh stack with the default budget holding what `Decode` reads, pushed one by one, or the stream error `Decode` meets |
| Catalog.Resolved | src/com/loganh/sandblaster/ElementTable.java:40-47 | `resolve(byte)` finds an element exactly when the ordinal is one of the table's, and then it is the element with that ordinal |
| Catalog.WeightSumIsSum | src/com/loganh/sandblaster/Element.java:17-19 | the constructor's running `totalWeight` is the sum of the weights' values |
| Catalog.FirstAtLeastIsFirst | src/com/loganh/sandblaster/Element.java:29-34 | the search stops at the first index whose running total reaches the draw, and only when none does does it find nothing |
| Catalog.ReadWordsFails | src/com/loganh/sandblaster/Element.java:72-74 | once reading `i` weights fails, reading more fails with the same error |
| Catalog.CanonicalWords | src/com/loganh/sandblaster/Element.java:57-59 | `writeFloat` keeps every weight that is not NaN bit for bit |
| Catalog.ReadFloatWords | src/com/loganh/sandblaster/Element.java:72-74 | the weights written back to back read back as the same weights, NaN made canonical, with the stream after them |
| Catalog.ProductSet.Walk | src/com/loganh/sandblaster/Element.java:29-35 | the subtract-and-compare loop returns the first product whose cumulative weight reaches the scaled draw, else the first product |
| Catalog.ProductSet.PickProduct | src/com/loganh/sandblaster/Element.java:22-36 | null for no products; the only product, without a draw, for one; otherwise one draw and the walk's choice for that draw times `totalWeight`; the pick is always one of the products |
| Catalog.ProductSet.Write | src/com/loganh/sandblaster/Element.java:48-60 | the count byte, one ordinal byte per product (-1 for nothing), then every weight, as `Encode` gives them |
| Catalog.ProductSet.Decode | src/com/loganh/sandblaster/Element.java:62-76 | a successful read always consumes bytes |
| Catalog.ProductSet.Read | src/com/loganh/sandblaster/Element.java:62-76 | the read loops return what `Decode` describes: null for a zero count, a failed allocation for a negative one, else resolved ordinals and their weights |
| Catalog.NewProductSet | src/com/loganh/sandblaster/Element.java:14-20 | the products and weights as given, with `totalWeight` their running sum |
| Catalog.Transmutation.PickProduct | src/com/loganh/sandblaster/Element.java:113-118 | nothing, without a draw, when there is no product set; otherwise the set's pick: nothing and no draw for an empty set, its only product and no draw for one product, and for two or more one draw and the first product whose cumulative weight covers it |
| Catalog.Transmutation.Decode | src/com/loganh/sandblaster/Element.java:131-136 | a successful read always consumes bytes |
| Catalog.Element.Decode | src/com/loganh/sandblaster/Element.java:199-210 | a successful read always consumes bytes |
| Catalog.FirstCoveringIsFirst | src/com/loganh/sandblaster/Element.java:29-34 | the cumulative walk finds the first product whose running total reaches the draw |
| Catalog.ChoiceIsAProduct | src/com/loganh/sandblaster/Element.java:29-35 | whatever the draw, the pick is one of the set's products, the covering one when there is one |
| Catalog.CumulativeMonotone | src/com/loganh/sandblaster/Element.java:29-34 | with non-negative weights the cumulative weights never decrease |
| Catalog.ScaledDrawBelowTotal | src/com/loganh/sandblaster/Element.java:28 | a draw in [0, 1) times a non-negative `totalWeight` lies in [0, totalWeight] |
| Catalog.PickIsProportional | src/com/loganh/sandblaster/Element.java:22-36 | with non-negative weights summing to `totalWeight`, every scaled draw is covered and the pick is the product whose slice of the cumulative weights holds it, so the fallback to the first product never happens |
| Catalog.DecodeSteps | src/com/loganh/sandblaster/Element.java:62-76 | with a positive count and room for the ordinals, `read` builds the set of resolved ordinals and the weights after them |
| Catalog.OrdinalsRoundTrip | src/com/loganh/sandblaster/Element.java:62-71 | ordinal bytes written for products known to the table resolve back to the same products |
| Catalog.ProductSetRoundTrip | src/com/loganh/sandblaster/Element.java:48-76 | `ProductSet.read(write(p))` gives back the same products and weights (NaN made canonical), with the stream after them |
| Catalog.ProductSetAsReadEquals | src/com/loganh/sandblaster/Element.java:79-99 | a set read back `equals` the one written when no weight is NaN |
| Catalog.ElementRoundTrip | src/com/loganh/sandblaster/Element.java:187-210 | `Element.read(write(e))` reproduces the nine scalar fields, floats bit for bit up to NaN |
| Catalog.ElementAsReadSame | src/com/loganh/sandblaster/Element.java:213-219 | with no NaN among its floats, the element read back has scalar fields `equals` accepts |
| Catalog.TransmutationRoundTrip | src/com/loganh/sandblaster/Element.java:125-136 | `Transmutation.read(write(t))` gives the same target and products, and the probability up to NaN |
| Catalog.TransmutationAsReadEquals | src/com/loganh/sandblaster/Element.java:139-154 | a rule read back `equals` the one written, whatever its probability, when its target is an equal element on both sides and no weight is NaN |
| Table.TableValue.AddRule | src/com/loganh/sandblaster/ElementTable.java:49-52 | the rule lands in the agent's row at its target's column, no other slot changes, and only the agent's `transmutationCount` goes up by one |
| Table.PresentExactly | src/com/loganh/sandblaster/ElementTable.java:62-70 | the rules listed for a row are exactly the non-null slots of that row |
| Table.PresentAscending | src/com/loganh/sandblaster/ElementTable.java:62-70 | they come in ascending order of target ordinal |
| Table.AddRuleKeepsValid | src/com/loganh/sandblaster/ElementTable.java:49-52 | adding a rule for known elements keeps the table well formed |
| Table.OverwriteCountsTwice | src/com/loganh/sandblaster/ElementTable.java:49-52 | a second rule for the same pair replaces the first, yet the agent's count goes up twice |
| Table.LowerChar | src/com/loganh/sandblaster/ElementTable.java:24 | `toLowerCase` maps each capital letter to its small letter and keeps every other character |
| Table.SameNameIgnoresCase | src/com/loganh/sandblaster/ElementTable.java:22-29 | name lookup gives the same answer for a name and its lower-cased form |
| Table.ElementTable.constructor | src/com/loganh/sandblaster/ElementTable.java:13-20 | the elements get the ordinals 0 .. n-1 in place, and the rule matrix is n by n and empty |
| Table.ElementTable.ValidIsOrdered | src/com/loganh/sandblaster/ElementTable.java:13-17 | in a well-formed table each element's ordinal is its position |
| Table.ElementTable.ResolveName | src/com/loganh/sandblaster/ElementTable.java:22-29 | `resolve(String)` returns the first element whose name equals the given one ignoring case, and null exactly when none does |
| Table.ElementTable.ResolveId | src/com/loganh/sandblaster/ElementTable.java:31-38 | `resolve(char)` returns the first element with that id, and null exactly when none has it |
| Table.ElementTable.ResolveOrdinal | src/com/loganh/sandblaster/ElementTable.java:40-47 | `resolve(byte)` returns the first element with that ordinal, null exactly when none has it; in a well-formed table that is the element at that position |
| Table.ElementTable.AddTransmutation | src/com/loganh/sandblaster/ElementTable.java:49-52 | the table afterwards is `AddRule` of the table before |
| Table.ElementTable.MaybeTransmutate | src/com/loganh/sandblaster/ElementTable.java:54-60 | no rule: the target, without a draw; a rule: one draw of the table's generator, and the target unless it falls below the probability, in which case the rule's pick from the sandbox generator (its only product without a draw, or the covering product for one draw); the outcome is `Transmuted` of the rule and the two next draws |
| Table.ElementTable.GetTransmutations | src/com/loganh/sandblaster/ElementTable.java:62-70 | the agent's rules, in target order, as `Present` lists them |
| Table.ElementTable.Write | src/com/loganh/sandblaster/ElementTable.java:72-94 | the count byte, the elements, their decay sets, one record per rule in row order, then -1, as `Encode` gives them |
| Table.ElementTable.WriteElements | src/com/loganh/sandblaster/ElementTable.java:74-76 | the elements' bytes in table order |
| Table.ElementTable.WriteDecays | src/com/loganh/sandblaster/ElementTable.java:77-83 | each element's decay set, or a zero byte for none |
| Table.ElementTable.WriteRecords | src/com/loganh/sandblaster/ElementTable.java:84-92 | each rule as its agent's ordinal and its own bytes, row by row |
| Table.ElementTable.WriteRow | src/com/loganh/sandblaster/ElementTable.java:85-91 | the records of one agent's row, in target order |
| Table.ElementTable.ReadElements | src/com/loganh/sandblaster/ElementTable.java:97-100 | the element loop reads what `DecodeElements` describes |
| Table.ElementTable.ReadDecays | src/com/loganh/sandblaster/ElementTable.java:102-104 | each element's decay set becomes the one read, and nothing else of it changes |
| Table.ElementTable.ReadRules | src/com/loganh/sandblaster/ElementTable.java:105-109 | the record loop adds every rule read until an unknown agent ordinal, as `DecodeRecords` describes |
| Table.ElementTable.Read | src/com/loganh/sandblaster/ElementTable.java:96-111 | a fresh table holding what `Decode` reads, or the stream error it meets |
| Table.ElementsRoundTrip | src/com/loganh/sandblaster/ElementTable.java:96-100 | the elements written read back as their scalar fields, with the stream after them |
| Table.DecayRoundTrip | src/com/loganh/sandblaster/ElementTable.java:101-104 | one decay set, or its absence, reads back as written |
| Table.DecaysRoundTrip | src/com/loganh/sandblaster/ElementTable.java:101-104 | all the decay sets read back in order |
| Table.RecordRoundTrip | src/com/loganh/sandblaster/ElementTable.java:105-108 | one written record reads back as that rule added to the table |
| Table.RecordsRoundTrip | src/com/loganh/sandblaster/ElementTable.java:105-109 | all written records read back as their rules added in order |
| Table.SentinelEnds | src/com/loganh/sandblaster/ElementTable.java:105-106 | the closing -1 ends the record loop with the table as it is |
| Table.AllSlots | src/com/loganh/sandblaster/ElementTable.java:84-92 | adding back the records of the first `k` rows fills exactly those rows' slots |
| Table.LoadedFilled | src/com/loganh/sandblaster/ElementTable.java:72-111 | adding back every record of a well-formed table to the elements read back rebuilds the whole table |
| Table.DecodeSteps | src/com/loganh/sandblaster/ElementTable.java:96-111 | `read` is the elements, then the decay sets, then the record loop over the table they make |
| Table.EncodeShape | src/com/loganh/sandblaster/ElementTable.java:72-94 | `write` lays out count, elements, decay sets, records and sentinel in that order |
| Table.TableRoundTrip | src/com/loganh/sandblaster/ElementTable.java:72-111 | `read(write(t))` gives back the table (its floats with NaN made canonical), with the stream after it |
| Table.TableAsReadEquals | src/com/loganh/sandblaster/ElementTable.java:113-135 | with no NaN among its floats, a table read back `equals` the one written |
| JavaData.ReadWriteByte | src/com/loganh/sandblaster/UndoStack.java:79 | a byte written with `writeByte` reads back as the same signed value, with the stream after it |
| JavaData.ReadWriteBoolean | src/com/loganh/sandblaster/Element.java:203-204 | a boolean written with `writeBoolean` reads back unchanged |
| JavaData.ReadWriteShort | src/com/loganh/sandblaster/SandBox.java:400-403 | a 16-bit value written with `writeShort` reads back unchanged, with the stream after it |
| JavaData.ReadWriteChar | src/com/loganh/sandblaster/Element.java:201 | a char written with `writeChar` reads back unchanged |
| JavaData.ReadWriteInt | src/com/loganh/sandblaster/Element.java:202 | an int written with `writeInt` reads back unchanged |
| JavaData.ReadWriteFloat | src/com/loganh/sandblaster/Element.java:205-207 | a float written with `writeFloat` reads back bit for bit, except that a NaN comes back canonical |
| JavaData.DecodeEncodeChars | src/com/loganh/sandblaster/Element.java:200 | the modified UTF-8 bytes of a string decode back to the string, character by character |
| JavaData.ReadWriteUtf | src/com/loganh/sandblaster/Element.java:200 | a name written with `writeUTF` reads back unchanged, with the stream after it |
| Bytes.FloatToIntBits | src/com/loganh/sandblaster/Element.java:58 | the bits `writeFloat` puts out keep every float that is not NaN, and keep NaN-ness |
| Draws.Random.NextFloat | src/com/loganh/sandblaster/SandBox.java:256 | `nextFloat()` returns the next draw of the stream and advances it by one |
| Draws.Random.NextBoolean | src/com/loganh/sandblaster/SandBox.java:219 | `nextBoolean()` is true when the next draw is below one half, and consumes it |
| Draws.CRandom.NextBoolean | jni/sandblaster.cc:97-99 | `random() & 1`: true exactly when the next 31-bit value is odd, and one draw is consumed |
| Draws.CRandom.NextFloat | jni/sandblaster.cc:101-104 | the next 31-bit value divided by 2^31, and one draw is consumed |
| Occupancy.NearestLeft | src/com/loganh/sandblaster/SandBox.java:31-33 | the nearest occupied column left of `x`, or -1: nothing occupied lies between |
| Occupancy.NearestRight | src/com/loganh/sandblaster/SandBox.java:31-34 | the nearest occupied column right of `x`, or the width: nothing occupied lies between |
| Occupancy.NearestLeftIsNearest | src/com/loganh/sandblaster/SandBox.java:31-33 | every occupied column left of `x` is at or before the nearest one |
| Occupancy.NearestRightIsNearest | src/com/loganh/sandblaster/SandBox.java:31-34 | every occupied column right of `x` is at or after the nearest one |
| Occupancy.ClearedExact | src/com/loganh/sandblaster/SandBox.java:90-95 | the pointers `clear` sets (-1 and the width) are exactly the nearest neighbours of an empty row |
| Occupancy.ExactIsSound | src/com/loganh/sandblaster/SandBox.java:31-34 | nearest-neighbour pointers satisfy the weaker invariant `setParticle` keeps |
| Occupancy.SpliceSkips | src/com/loganh/sandblaster/SandBox.java:172-193 | after the re-splice, pointers go the right way, stay within -1 .. width, and jump over empty columns only |
| Occupancy.SpliceMonotone | src/com/loganh/sandblaster/SandBox.java:172-193 | after the re-splice both pointer rows are still non-decreasing |
| Occupancy.SpliceNestedRight | src/com/loganh/sandblaster/SandBox.java:172-193 | after the re-splice no column inside a right pointer's span points left past its start |
| Occupancy.SpliceNestedLeft | src/com/loganh/sandblaster/SandBox.java:172-193 | the mirror image for left pointers |
| Occupancy.SpliceSound | src/com/loganh/sandblaster/SandBox.java:161-196 | `setParticle`'s re-splice keeps the invariant whether a particle is put down or taken away |
| Occupancy.PutKeepsExact | src/com/loganh/sandblaster/SandBox.java:172-193 | putting a particle down keeps the pointers exactly the nearest neighbours |
| Occupancy.RemovalLeavesStalePointer | src/com/loganh/sandblaster/SandBox.java:172-185 | taking a particle away does not: in a row of two particles, removing the right one leaves the left one pointing at the empty column |
| Occupancy.Walk | src/com/loganh/sandblaster/SandBox.java:395 | a walk along the right pointers visits only columns of the row at or after its start |
| Occupancy.WalkAscends | src/com/loganh/sandblaster/SandBox.java:224-232 | a walk visits its columns in strictly increasing order, so it ends |
| Occupancy.SoundSkipsRight | src/com/loganh/sandblaster/SandBox.java:31-34 | under the invariant, right pointers skip empty columns only |
| Occupancy.WalkVisitsParticles | src/com/loganh/sandblaster/SandBox.java:224-236 | a walk visits every particle at or after its starting column, so the tick and `write` miss none |
| SandState.Occupied | src/com/loganh/sandblaster/SandBox.java:26 | a row's occupancy flags mark exactly its columns holding a particle |
| SandState.ReadCell | src/com/loganh/sandblaster/SandBox.java:433-440 | reading a column consumes bytes whenever it succeeds |
| SandState.Cleaned | src/com/loganh/sandblaster/SandBox.java:430-443 | `read` keeps a particle's cell as written and the element of every cell |
| SandState.CellRoundTrip | src/com/loganh/sandblaster/SandBox.java:433-440 | a particle written as ordinal, age and stamps relative to the tick reads back as itself; an empty column reads back as nothing |
| SandState.ChainRoundTrip | src/com/loganh/sandblaster/SandBox.java:432-442 | the walk along the right pointers, written and read back, restores the row with its empty cells cleaned |
| SandState.RowRoundTrip | src/com/loganh/sandblaster/SandBox.java:430-443 | a whole row, start column and walk, reads back as the written row with its empty cells cleaned |
| SandState.RowsRoundTrip | src/com/loganh/sandblaster/SandBox.java:430-443 | all rows read back in order |
| SandState.SourcesRoundTrip | src/com/loganh/sandblaster/SandBox.java:422-428 | the written sources read back as the same points and ordinals added in the written order |
| SandState.AddAllRebuilds | src/com/loganh/sandblaster/SandBox.java:422-428 | adding a map's keys in whatever order `getSources` lists them, each with its element, rebuilds the map |
| SandState.GridRoundTrip | src/com/loganh/sandblaster/SandBox.java:420-443 | the tick, the sources and the rows read back as written |
| SandState.BodyRoundTrip | src/com/loganh/sandblaster/SandBox.java:416-443 | everything after the element table, dimensions included, reads back as written |
| SandState.VersionRoundTrip | src/com/loganh/sandblaster/SandBox.java:410-413 | the version tag 1.6f written reads back as itself, so `read` accepts it |
| SandState.WrongVersionRefused | src/com/loganh/sandblaster/SandBox.java:411-413 | a snapshot whose version tag is not 1.6f is refused |
| SandState.BoxRoundTrip | src/com/loganh/sandblaster/SandBox.java:367-445 | `read(write(box))` gives the box back, its table as `read` rebuilds it and its empty cells with zero age and stamps |
| SandState.RestoredElements | src/com/loganh/sandblaster/SandBox.java:447-485 | elements of a restored table `equals` the ones written |
| SandState.RestoredEqualsIffClean | src/com/loganh/sandblaster/SandBox.java:447-485 | a restored box `equals` the original exactly when every empty cell of the original has zero age and stamps |
| SandState.RestoredSnapshotEquals | src/com/loganh/sandblaster/SandBox.java:447-485 | ignoring the age and stamps of empty cells, a restored box always equals the original |
| SandState.CopyEqualsIffClean | src/com/loganh/sandblaster/SandBox.java:447-485 | `unpack(packToBytes(box)).equals(box)` holds exactly when no empty cell keeps an age or stamp that `setParticle` left behind |
| SandState.CopySnapshotEquals | src/com/loganh/sandblaster/SandBox.java:447-485 | the copy equals the box whenever the age and stamps of empty cells are ignored |
| Engine.CellIndexInRange | src/com/loganh/sandblaster/SandBox.java:166 | the redraw slot `y * width + x` of a cell in the box is one of the `width * height` slots of the ring |
| Engine.SandBox.constructor | src/com/loganh/sandblaster/SandBox.java:72-77 | the box has the given dimensions and table, is cleared (every cell empty, no sources, tick -1) and satisfies the index invariant |
| Engine.SandBox.Clear | src/com/loganh/sandblaster/SandBox.java:79-101 | no sources, every cell empty with zero age and stamps, every left pointer -1 and right pointer the width, a zeroed redraw ring, and the tick back at -1 |
| Engine.SandBox.EmptyLinks | src/com/loganh/sandblaster/SandBox.java:90-95 | the pointer loops set each row to the cleared index |
| Engine.SandBox.Resplice | src/com/loganh/sandblaster/SandBox.java:172-193 | the re-splice loops change row `y`'s pointers into `SplicedLeft`/`SplicedRight` of the old ones and leave every other row alone |
| Engine.SandBox.RelinkBefore | src/com/loganh/sandblaster/SandBox.java:172-178 | the columns between `x` and its left neighbour now point right to `x`, or to `x`'s right neighbour when `x` was emptied; no other right pointer changes |
| Engine.SandBox.RelinkAfter | src/com/loganh/sandblaster/SandBox.java:179-185 | the mirror image for left pointers |
| Engine.SandBox.Replace | src/com/loganh/sandblaster/SandBox.java:164-194 | a different element is put in with age 0 and stamped set and changed, and its row's index is re-spliced, keeping the invariant |
| Engine.SandBox.Restamp | src/com/loganh/sandblaster/SandBox.java:163 | the same element in place: only the set stamp changes |
| Engine.SandBox.MarkDirty | src/com/loganh/sandblaster/SandBox.java:166-167 | the cell's slot number is written at the ring position, which then advances by one modulo the ring length |
| Engine.SandBox.SetParticle | src/com/loganh/sandblaster/SandBox.java:161-196 | outside the box nothing changes; inside, only the cell changes, to `Stamped`, and its row's index is re-spliced; the index invariant and the stamp discipline are kept |
| Engine.SandBox.AddSource | src/com/loganh/sandblaster/SandBox.java:111-119 | a null element removes the point's source, a point outside the box changes nothing, otherwise the point maps to the element |
| Engine.SandBox.RemoveSource | src/com/loganh/sandblaster/SandBox.java:121-123 | the point loses its source and no other point changes |
| Engine.SandBox.GetSources | src/com/loganh/sandblaster/SandBox.java:125-132 | one entry per source, with its point and element, no point twice |
| Engine.SandBox.EffectiveDensity | src/com/loganh/sandblaster/SandBox.java:334-339 | outside the box or on an empty cell 0, otherwise the density of the cell's element |
| Engine.SandBox.IsMobile | src/com/loganh/sandblaster/SandBox.java:341-346 | outside the box and empty cells give way; a particle does exactly when its element is mobile and it was not set this tick |
| Engine.SandBox.Swap | src/com/loganh/sandblaster/SandBox.java:316-332 | one end outside the box empties the other end; otherwise the two cells exchange elements and ages, both stamped set, and nothing else changes |
| Engine.SandBox.SetAge | src/com/loganh/sandblaster/SandBox.java:330-331 | only the cell's age changes |
| Engine.SandBox.Update | src/com/loganh/sandblaster/SandBox.java:209-314 | the tick counter goes up by one, the index invariant holds after, and every cell whose element differs from what the sources left was set and changed in this tick |
| Engine.SandBox.Reassert | src/com/loganh/sandblaster/SandBox.java:210-212 | every source's cell holds its element, stamped; no other cell changes |
| Engine.SandBox.ScanRow | src/com/loganh/sandblaster/SandBox.java:216-312 | one row's walk keeps the index invariant, and every cell it changes is stamped set and changed in this tick |
| Engine.SandBox.Step | src/com/loganh/sandblaster/SandBox.java:233-311 | an empty cell, or a particle already set this tick, is left alone and draws nothing; any change is stamped |
| Engine.SandBox.Transmute | src/com/loganh/sandblaster/SandBox.java:238-253 | the eight neighbours are offered to the table's rules; the particle's own cell and every cell outside its 3×3 neighbourhood are untouched |
| Engine.SandBox.Offer | src/com/loganh/sandblaster/SandBox.java:243-249 | only the neighbour's cell can change, and not at all when it lies outside the box, is empty, or was set this tick |
| Engine.SandBox.Meet | src/com/loganh/sandblaster/SandBox.java:245-248 | the outcome is what `maybeTransmutate` yields for the rule and the next draws; the neighbour keeps its state when the outcome is its own element, and is otherwise set to the outcome and stamped; nothing else changes |
| Engine.SandBox.Become | src/com/loganh/sandblaster/SandBox.java:246-248 | `setParticle` only when the outcome differs from the element there: a cell that keeps its element keeps its stamps too; otherwise it is set and stamped; nothing else changes |
| Engine.SandBox.KnownProduct | src/com/loganh/sandblaster/ElementTable.java:54-60 | what a rule yields is the target, nothing, or one of the rule's products, so always an element of the table |
| Engine.SandBox.Decay | src/com/loganh/sandblaster/SandBox.java:255-262 | a particle set this tick draws nothing and is untouched; a surviving particle keeps its element and set stamp; an expired one was past its lifetime and is stamped set |
| Engine.SandBox.Expire | src/com/loganh/sandblaster/SandBox.java:259 | the particle becomes nothing when its element has no decay products (no draw), else the set's pick for the next draw, with the pick's draw count: one of the products for a non-empty set; stamped; no other cell changes |
| Engine.SandBox.KnownDecayProducts | src/com/loganh/sandblaster/Element.java:166 | every decay product of a table element is an element of the table or nothing |
| Engine.SandBox.Chance | src/com/loganh/sandblaster/SandBox.java:276-304 | `nd == 0 \|\| random.nextFloat() < diff`: an empty neighbour always goes without a draw, otherwise one draw that must fall below the difference |
| Engine.SandBox.Slide | src/com/loganh/sandblaster/SandBox.java:268-292 | the horizontal move keeps the index invariant and stamps every change |
| Engine.SandBox.SlideBeside | src/com/loganh/sandblaster/SandBox.java:274-289 | the sideways swap keeps the index invariant and stamps every change |
| Engine.SandBox.Settle | src/com/loganh/sandblaster/SandBox.java:294-311 | the vertical move keeps the index invariant and stamps every change |
| Engine.SandBox.MarkFloated | src/com/loganh/sandblaster/SandBox.java:299-307 | only the cell's floated stamp changes |
| NativeList.RemoveUndoesAdd | jni/sandblaster.cc:120-141 | removing the pointer just added gives back the list as it was |
| NativeList.RemovedCounts | jni/sandblaster.cc:127-141 | `remove` takes out one occurrence of a held pointer and changes nothing when the pointer is absent |
| NativeList.RemovedSplits | jni/sandblaster.cc:129-138 | the occurrence removed is the first, and the nodes around it are joined |
| NativeList.List.constructor | jni/sandblaster.cc:112-118 | a new list holds nothing |
| NativeList.List.Add | jni/sandblaster.cc:120-125 | `add` puts the pointer at the head |
| NativeList.List.Remove | jni/sandblaster.cc:127-141 | `remove` answers whether the pointer was held and unlinks its first occurrence |
| NativeGrid.Assigned | jni/sandblaster.cc:410-416 | `Point::operator=` replaces the element, restarts the age only when the element changes, and keeps the stamps |
| NativeGrid.AssignSameKeeps | jni/sandblaster.cc:410-416 | assigning the element a point already holds leaves it as it is |
| NativeGrid.AssignIdempotent | jni/sandblaster.cc:410-416 | a second assignment of the same element changes nothing more |
| NativeGrid.Grid.constructor | jni/sandblaster.cc:176-182 | `w` columns of `h` points |
| NativeGrid.Grid.At | jni/sandblaster.cc:188-193 | in range the point stored there, out of range the default point |
| NativeGrid.Grid.Put | jni/sandblaster.cc:188-193 | a write in range changes that cell only; out of range it reaches no cell |
| NativeStream.Jbyte | jni/sandblaster.cc:46-52 | a signed byte and the cursor one step on, or 0 with the cursor kept when no byte is left |
| NativeStream.Jshort | jni/sandblaster.cc:58-66 | a big-endian signed short and two steps on, or 0 with the cursor kept |
| NativeStream.Jint | jni/sandblaster.cc:68-77 | a big-endian signed int and four steps on, or 0 with the cursor kept |
| NativeStream.Jfloat | jni/sandblaster.cc:79-82 | the int's bits taken as a float, or +0.0 with the cursor kept |
| NativeStream.ReadsWriteByte | jni/sandblaster.cc:46-52 | a byte written by Java's `writeByte` reads back as the value written |
| NativeStream.ReadsWriteBoolean | jni/sandblaster.cc:54-56 | a boolean written by `writeBoolean` reads back as 1 or 0 |
| NativeStream.ReadsWriteShort | jni/sandblaster.cc:58-66 | a short written by `writeShort` reads back as the value written |
| NativeStream.ReadsWriteInt | jni/sandblaster.cc:68-77 | an int written by `writeInt` reads back as the value written |
| NativeStream.ReadsWriteFloat | jni/sandblaster.cc:79-82 | a float written by `writeFloat` reads back bit for bit, NaN made canonical |
| NativeStream.DataStream.constructor | jni/sandblaster.cc:30-36 | a stream at the first byte of the array |
| NativeStream.DataStream.Skip | jni/sandblaster.cc:42-44 | the cursor moves by the amount, unchecked |
| NativeStream.DataStream.ReadJbyte | jni/sandblaster.cc:46-52 | returns and advances as `Jbyte` says |
| NativeStream.DataStream.ReadJboolean | jni/sandblaster.cc:54-56 | the next byte taken as unsigned, as `Jboolean` says |
| NativeStream.DataStream.ReadJshort | jni/sandblaster.cc:58-66 | returns and advances as `Jshort` says |
| NativeStream.DataStream.ReadJint | jni/sandblaster.cc:68-77 | returns and advances as `Jint` says |
| NativeStream.DataStream.ReadJfloat | jni/sandblaster.cc:79-82 | returns and advances as `Jfloat` says |
| NativeTable.ElementAt | jni/sandblaster.cc:246-262 | `Element::Read` skips the name by its length and drops `drawable`; the element gets ordinal `i`, a 16-bit id, no rules counted and no decay set; it faults exactly when a negative name length moves the cursor before the array |
| NativeTable.ElementsNumbered | jni/sandblaster.cc:297-302 | the elements read are numbered 0 .. size-1 in stream order, with 16-bit ids, no rules counted and no decay sets |
| NativeTable.ElementsFaultPersists | jni/sandblaster.cc:297-302 | once an element read faults, reading more elements ends in the same fault |
| NativeTable.OrdinalsFrom | jni/sandblaster.cc:367-370 | each product ordinal resolves to an element of the table or to null |
| NativeTable.ProductSetAt | jni/sandblaster.cc:358-375 | `ProductSet::Read` fails exactly when the count byte is negative, and otherwise stays within the array |
| NativeTable.ProductSetAtClosed | jni/sandblaster.cc:363-374 | a set read names only elements of the table, and `total_weight` is the sum of its weights |
| NativeTable.DecaysClosed | jni/sandblaster.cc:305-307 | every decay set read names only elements of the table |
| NativeTable.DecaysFaultPersists | jni/sandblaster.cc:305-307 | once a decay set read faults, reading more ends in the same fault |
| NativeTable.RuleAt | jni/sandblaster.cc:395-400 | a rule's target, when it resolves, is an element of the table |
| NativeTable.RuleAtIn | jni/sandblaster.cc:395-400 | a rule read belongs to the table: its target and products are elements of it |
| NativeTable.RecordsFrom | jni/sandblaster.cc:309-319 | the corrected rule list: records follow each other until the stream is exhausted or an agent ordinal does not resolve, and never move the cursor back |
| NativeTable.RecordsIn | jni/sandblaster.cc:310-318 | every record read names an element of the table as agent and holds a rule of the table |
| NativeTable.TableParts | jni/sandblaster.cc:291-320 | `ElementTable::Read` is the count, the elements, the decay sets and the rule list, the first fault ending it |
| NativeTable.CountSnoc | jni/sandblaster.cc:313 | `transmutation_count` goes up once per record naming the element as agent |
| NativeTable.LastRuleSnoc | jni/sandblaster.cc:316 | a record overwrites the slot of its own pair and no other |
| NativeTable.LaterRecordWins | jni/sandblaster.cc:312-316 | the slot of a pair holds the rule of the last record for it |
| NativeTable.UnnamedPairKeepsNoRule | jni/sandblaster.cc:221 | a pair no record names keeps the empty rule, whose probability is 0 |
| NativeTable.LastRuleIn | jni/sandblaster.cc:316 | every slot of the block holds a rule of the table |
| NativeTable.RecordStep | jni/sandblaster.cc:311-318 | after an agent byte that resolves, the rule is read; a null target is a fault, otherwise the record heads the rest of the list |
| NativeTable.ExhaustedStreamEndsRecords | jni/sandblaster.cc:309-319 | in the corrected list, an exhausted stream ends the records |
| NativeTable.RecordStepAsWritten | jni/sandblaster.cc:310-318 | one turn of the loop as written: the agent ordinal read continues the loop only when it is below the table size |
| NativeTable.AsWrittenLoopNeverExits | jni/sandblaster.cc:309-319 | with the stream exhausted and at least one element, every read yields 0, ordinal 0 resolves, and the loop as written turns forever without moving the cursor |
| NativeTable.WeightSumSnoc | jni/sandblaster.cc:371-374 | one more weight adds its value to `total_weight` |
| NativeTable.PickProduct | jni/sandblaster.cc:377-393 | null for an empty set, without a draw; otherwise one draw, even for a single product, and the pick is one of the products |
| NativeTable.PickedIsAProduct | jni/sandblaster.cc:385-392 | whatever `random()` returns, the pick from a non-empty set is one of its products |
| NativeTable.ElementTable.constructor | jni/sandblaster.cc:266-269 | a new table has no elements and no rules |
| NativeTable.ElementTable.GetElementById | jni/sandblaster.cc:278-285 | the first element, in ordinal order, whose id equals `id`, null exactly when none does; an id of 0x8000 or more is never found, since ids are signed 16-bit |
| NativeTable.ElementTable.GetElementByOrdinal | jni/sandblaster.cc:287-289 | the element with that ordinal exactly when it lies in `[0, size)` |
| NativeTable.ElementTable.MaybeTransmutate | jni/sandblaster.cc:322-335 | the target, without a draw, when either pointer is null or the rule's probability is at most 0; otherwise one draw, and the rule's pick when the draw falls below the probability, else the target; in all cases the outcome and draw count of `Outcome`/`OutcomeDraws` |
| NativeTable.ElementTable.ReadProductSet | jni/sandblaster.cc:358-375 | the read agrees with `ProductSetAt`, value and cursor |
| NativeTable.ElementTable.ReadElement | jni/sandblaster.cc:246-262 | the read agrees with `ElementAt` |
| NativeTable.ElementTable.ReadRule | jni/sandblaster.cc:395-400 | the read agrees with `RuleAt` |
| NativeTable.ElementTable.Read | jni/sandblaster.cc:291-320 | on success the table holds exactly what `TableAt` describes and the cursor is past the rule list; a fault ends the read with it |
| NativeTable.ElementTable.Assembled | jni/sandblaster.cc:297-319 | the arrays after the three loops hold the table built from their parts |
| NativeTable.ElementTable.ReadElements | jni/sandblaster.cc:297-302 | the element loop reads every element in ordinal order, as `ElementsFrom` says |
| NativeTable.ElementTable.ReadDecays | jni/sandblaster.cc:305-307 | each element's decay set becomes the one read, nothing else of it changes |
| NativeTable.ElementTable.ReadRecords | jni/sandblaster.cc:309-319 | the rule loop reads the records `RecordsFrom` describes and counts and stores each one |
| NativeTable.ElementTable.ReadRecordAfter | jni/sandblaster.cc:313-316 | one turn of the rule loop reads the rule, and counts and stores a rule with a target |
| NativeTable.ElementTable.NextAgent | jni/sandblaster.cc:310-318 | the next agent is the next byte's ordinal when it resolves; an exhausted stream ends the list |
| NativeTable.ElementTable.Tally | jni/sandblaster.cc:313-316 | one record is counted against its agent and stored at its pair |
| NativeSandbox.Inc32 | jni/sandblaster.cc:646 | `++` on a `jint` adds one and wraps from the largest int to the smallest |
| NativeSandbox.LessAsymmetric | jni/sandblaster.cc:664-666 | C's `<` on floats is a strict order: never both ways, never reflexive |
| NativeSandbox.NaNIsUnordered | jni/sandblaster.cc:664-678 | a NaN density compares false both ways, so `<=` is not the negation of the reversed `<` |
| NativeSandbox.Stamped | jni/sandblaster.cc:541-547 | `SetParticle` on a point: the element assigned, the set stamp always this tick, the changed stamp and a zero age only when the element differs, the floated stamp kept |
| NativeSandbox.StampedTwice | jni/sandblaster.cc:541-547 | setting a point twice in one tick with one element is setting it once |
| NativeSandbox.Exchanged | jni/sandblaster.cc:582-590 | the two points `Swap` leaves: elements and ages exchanged, both stamped set, floated stamps kept |
| NativeSandbox.ExchangeTwice | jni/sandblaster.cc:576-592 | swapping back within the same tick restores both points' elements, ages and floated stamps |
| NativeSandbox.Sandbox.constructor | jni/sandblaster.cc:440-448 | a fresh empty table and a `w` by `h` grid |
| NativeSandbox.Sandbox.Clear | jni/sandblaster.cc:520-526 | every point is assigned null: stamps stay, and ages restart where a particle was |
| NativeSandbox.Sandbox.SetParticle | jni/sandblaster.cc:541-547 | in range the point becomes `Stamped`; out of range nothing changes; no other point changes |
| NativeSandbox.Sandbox.SetAge | jni/sandblaster.cc:589-590 | only the point's age changes |
| NativeSandbox.Sandbox.MarkFloated | jni/sandblaster.cc:669-705 | only the point's floated stamp changes |
| NativeSandbox.Sandbox.Swap | jni/sandblaster.cc:576-592 | the first test as written (`y2 >= h` in place of `y1 >= h`) empties the second point; an out-of-range second point empties the first; a first point above the box resets the second; two distinct points in range are `Exchanged` |
| NativeSandbox.Sandbox.Iterate | jni/sandblaster.cc:594-712 | the tick counter goes up by one with `jint` wrap-around, every row is scanned once (one coin per row at least), and every point whose element changed is stamped set and changed in this tick |
| NativeSandbox.Sandbox.ScanRow | jni/sandblaster.cc:599-710 | one row: a coin for the direction, every column stepped once, every change stamped |
| NativeSandbox.Sandbox.Step | jni/sandblaster.cc:609-709 | an empty point is left alone with no draw; a sinking particle in the bottom row drops off with no draw and nothing else changes; a particle already set this tick only drops or floats off |
| NativeSandbox.Sandbox.Transmute | jni/sandblaster.cc:627-642 | the eight neighbours in `NEIGHBORS` order are offered to the rules; the particle's own point and every point outside its 3×3 neighbourhood are untouched |
| NativeSandbox.Sandbox.Offer | jni/sandblaster.cc:630-640 | only the neighbour can change, and not at all, with no draw, when it lies outside the grid, is empty, or was set this tick |
| NativeSandbox.Sandbox.Meet | jni/sandblaster.cc:633-639 | the outcome is `MaybeTransmutate`'s for the rule and the next values of `random()`, with its draw count; the neighbour keeps its state when the outcome is its own element, and is otherwise `SetParticle`d to it |
| NativeSandbox.Sandbox.Decay | jni/sandblaster.cc:644-651 | no positive probability: nothing changes and nothing is drawn; a survivor keeps its element and set stamp; an expired particle, past its lifetime after the wrapped `age++`, becomes null for an empty decay set (one draw in all) or the pick of the next value for a non-empty one (two draws in all) |
| NativeSandbox.Sandbox.Chance | jni/sandblaster.cc:693-702 | an empty or weightless point goes without a draw; otherwise one draw of `random()/2^31`, which must fall below the difference |
| NativeSandbox.Sandbox.Slide | jni/sandblaster.cc:657-689 | the horizontal move keeps the invariants and stamps every change |
| NativeSandbox.Sandbox.Yields | jni/sandblaster.cc:665-680 | nothing beside, or the outside of the grid, gives way without a draw; a mobile particle lighter than a sinking one (heavier than a floating one) gives way exactly when one draw falls below the density difference; any other particle does not, and nothing is drawn |
| NativeSandbox.Sandbox.Sink | jni/sandblaster.cc:691-698 | a sinking particle over an empty point always falls without a draw: the two points are `Exchanged`, the upper one marked floated, and nothing else changes |
| NativeSandbox.Sandbox.Rise | jni/sandblaster.cc:699-709 | the rise keeps the invariants and stamps every change |
| XmlSnapshot.SmallOrdinalsLettered | src/com/loganh/sandblaster/XmlSnapshot.java:131 | ordinals below 0xFFED give distinct letters `'A' + ordinal` that never collide with `.`, so a row of them reads back cell by cell |
| XmlSnapshot.OverlayTrimmed | src/com/loganh/sandblaster/XmlSnapshot.java:42-52 | trailing dots are transparent: a run with its trailing dots dropped paints the same cells as the untrimmed run |
| XmlSnapshot.WritePackedRow | src/com/loganh/sandblaster/XmlSnapshot.java:42-54 | `writePackedRow`: the run keeps its x and y, and its text is the pack with every trailing dot removed, so it is empty or ends on a letter |
| XmlSnapshot.PackRow | src/com/loganh/sandblaster/XmlSnapshot.java:122-144 | the row loop: every run is on row y, at most 64 characters, starts at an occupied column, has no trailing dot, and runs are ordered and disjoint; an empty row gives no runs; with letters that do not collide, the runs paint exactly the row's letters and each run starts with the letter of its first cell |
| XmlSnapshot.PackCell | src/com/loganh/sandblaster/XmlSnapshot.java:125-139 | one pass of the loop keeps the packing invariant: an occupied cell appends its letter and opens a run if none is open, an empty cell appends a dot only inside a run, and a run of 64 characters is flushed |
| XmlSnapshot.FlushedAt | src/com/loganh/sandblaster/XmlSnapshot.java:135-143 | flushing a pending run adds a well-formed run and closes the pending one |
| XmlSnapshot.Marked | src/com/loganh/sandblaster/XmlSnapshot.java:127-134 | the character appended for a cell keeps the pending pack equal to the marks of the cells since the run started |
| XmlSnapshot.Flushed | src/com/loganh/sandblaster/XmlSnapshot.java:42-54 | a trimmed run written for the pending pack paints exactly the letters of the cells it covers, and leaves the runs ordered |
| XmlSnapshot.HexStringReadsBack | src/com/loganh/sandblaster/XmlSnapshot.java:57 | `Integer.toHexString` yields hex digits with no leading zero that read back as the value, and at most two of them below 0x100 |
| XmlSnapshot.ColorComponentToString | src/com/loganh/sandblaster/XmlSnapshot.java:56-62 | at least two hex digits whose value is the component as an unsigned 32-bit word, exactly two for 0..255, and a leading zero only when padding |
| XmlSnapshot.GetBooleanAttribute | src/com/loganh/sandblaster/XmlSnapshot.java:169-175 | a missing attribute gives the default; otherwise true exactly when the value is "true" in any mix of cases |
| XmlSnapshot.ParseInt | src/com/loganh/sandblaster/XmlSnapshot.java:185-191 | `Integer.parseInt`: a result is a 32-bit int, and the text is refused when empty or a lone non-digit |
| XmlSnapshot.DigitsReadBack | src/com/loganh/sandblaster/XmlSnapshot.java:50-51 | the decimal digits of a natural read back as that natural |
| XmlSnapshot.ParseIntReadsToString | src/com/loganh/sandblaster/XmlSnapshot.java:185-191 | an integer attribute written with `Integer.toString` parses back to the same int |
| XmlSnapshot.GetIntegerAttribute | src/com/loganh/sandblaster/XmlSnapshot.java:185-191 | a missing attribute gives the default; otherwise the parsed value or the parse failure |
| XmlSnapshot.GetFloatAttribute | src/com/loganh/sandblaster/XmlSnapshot.java:177-183 | a missing attribute gives the default; otherwise whatever `Float.parseFloat` gives for the text |
| SandElement.Element.constructor | src/com/loganh/sand/Element.java:19-27 | the six fields as given, and no rules |
| SandElement.Element.AddTransmutation | src/com/loganh/sand/Element.java:29-31 | the rule for the target name is the new one, replacing any earlier one; rules for other names are kept |
| SandElement.Element.MaybeTransmutate | src/com/loganh/sand/Element.java:33-39 | no rule for the target's name: the target, with no draw; otherwise one draw, the rule's output when the draw is below the probability, else the target |

## Left out

- Android UI, rendering and threading are not part of this model. This covers the views, the activity, the presenters, the renderers, the bitmap and pixel output (`Sandbox::GetPixels`), the driver thread and `synchronized` locking. Methods are modelled as sequential.
- The JNI glue in jni/sandblaster.cc is not modelled: the `extern "C"` entry points, the sandbox registry (`Lookup`, `Get`, `Create`, `Delete`), `Resize`, `GetElement`, the global and local references, and `Sandbox::Read`. `Sandbox::Read` only checks the version float and then calls `ElementTable::Read`, which is modelled.
- `setParticle` with a radius, in Java and native, is not modelled. It stamps a disc, drawing one float per mobile cell. The two loops differ: Java runs `-radius..radius` inclusive, while the native loop stops before `radius`.
- `line`, in Java and native, is not modelled. It interpolates with float rounding.
- Time-seeded `srandom` and `new Random()` seeding are not modelled. The draws are an input of the model.
- `pickProduct` draws from `SandBox.RNG` (src/com/loganh/sandblaster/Element.java:28), which SandBox.java does not declare. The model assumes a generator `rng` of its own, separate from the box's and the table's generators, and passes it to every pick.
- Draws.Random.NextBoolean: Java's `nextBoolean` uses one bit of the generator. It is modelled as a draw below 0.5, which has the same distribution but not the same bits.
- Draws.CRandom.NextFloat: the native code divides `random()` by `float(0x7fffffff) + 1`, which is 2^31. The model takes this quotient exactly over the reals. In C, `random()` is first rounded to a float, so the values from 2^31 - 64 up give exactly 1.0, and other values round to a coarser grid. The model's draw is always below 1.
- Float rounding is not modelled. Density differences, cumulative weights, `totalWeight` and probability comparisons are taken over the reals. In the codecs, float fields are carried as 32-bit words.
- Engine.SandBox.EffectiveDensity: a NaN or infinite density reads as 0. Java compares the raw floats, so a particle of density +∞ sinks into an empty cell and a NaN neighbour blocks every move. In the model the first never moves and the second is passed like an empty cell. `Engine.SandBox.Slide`, `Engine.SandBox.SlideBeside` and `Engine.SandBox.Settle` share this reading.
- NativeSandbox.Sandbox.Yields: the density difference that a draw must fall below reads NaN and infinite densities as 0. In C, `inf - x` is infinite and such a move always goes, while the model's difference can be 0 or negative and the move then never goes. `NativeSandbox.Sandbox.Sink` and `NativeSandbox.Sandbox.Rise` take their differences the same way.
- Engine.SandBox.Update: the Java tick counter is an unbounded integer here, so the wrap of the `int` after 2^31 ticks is not modelled. The native counter does wrap (`NativeSandbox.Inc32`).
- Engine.SandBox.ScanRow: the contract states the engine invariant and the stamp discipline. It does not state which cells moved where.
- Engine.SandBox.Slide: the contract states the engine invariant and the stamp discipline. It does not state the exact destination.
- Engine.SandBox.SlideBeside: likewise, the invariant and stamps, not the chosen side.
- Engine.SandBox.Settle: likewise, the invariant and stamps, not the exact exchange.
- NativeSandbox.Sandbox.ScanRow: the invariant and the stamp discipline, not the exact moves.
- NativeSandbox.Sandbox.Slide: the invariant and stamps, not the exact destination.
- NativeSandbox.Sandbox.Sink: the invariant and stamps, not the exact exchange.
- NativeSandbox.Sandbox.Rise: the invariant and stamps, not the exact exchange.
- `null_col` in the native grid is not modelled. Its height is never initialised, so the model takes an out-of-range column to read as the default point, like an out-of-range row.
- The native `Sandbox` constructor leaves the tick counter and the points uninitialised. The model takes the starting tick and the point every cell starts as (`fill`) as constructor parameters.
- XML parsing and serialising are not modelled: the `XmlPullParser` event loop of `XmlSnapshot.read`, the `XmlSerializer` calls, and the writing of the element and source lists. No XML round trip is claimed, because the writer encodes `'A' + ordinal` while the reader looks elements up by id.
- `colorToString` is not modelled. It reads `Color.red`/`green`/`blue` from the Android library, and only `colorComponentToString` is modelled.
- XmlSnapshot.GetFloatAttribute: `Float.parseFloat` is a parameter, because decimal-to-float conversion is outside the model.
- XmlSnapshot.ParseInt: only ASCII digits are accepted, while `Integer.parseInt` also accepts other Unicode decimal digits.
- `String.toLowerCase` is modelled on ASCII letters only. No other character lower-cases to a letter of "true", so `getBooleanAttribute` is exact.
- Base64 `decode` reads the string through `getBytes()` in the platform charset. The model assumes ASCII input, so characters outside ASCII are skipped as single units.
- A null target passed to `maybeTransmutate` in sand/Element.java throws a null pointer exception. The model's target is never null.
- Where Java's `equals` would throw, the model returns false. This covers a `Transmutation` with a null target, a product set with fewer weights than products, and `Element.equals` on a null or foreign object.
- `UndoStack.push(SandBox)` and `pop` into a sandbox go through `pack`/`unpack`. The stack is modelled over byte sequences only.
- Undo.UndoStack.Push: `totalBytes` is a Java `int`, and `totalBytes += bytes.length` can wrap past 2^31 when the budget and the items are that large. The model's count is an unbounded integer, so the wrap and the eviction that follows from it are not modelled.
- `SandBox.pack`/`unpack` (Base64 of the binary snapshot) are not modelled as such. Their parts are modelled: `Base64` and `SandState`.
- The `dirtyPixels` ring is modelled only as far as the engine marks cells dirty. Drawing them into the bitmap is left out.

## Findings

| source | as written | input that shows it | evidently intended | confidence | as-written member | corrected member |
|---|---|---|---|---|---|---|
| jni/sandblaster.cc:309-319 | the rule loop of `ElementTable::Read` runs `while (agent)`, and once the stream is exhausted `ReadJbyte` yields 0, which resolves to element 0 whenever the table has an element, so the loop never ends | a table of one element whose bytes end after its decay set, with no `-1` sentinel | an exhausted stream ends the rule records, as the sentinel does; the short reads carry `// TODO: exception` (jni/sandblaster.cc:48), so the authors may have meant an error here rather than a silent stop, and the corrected member models the silent stop | not executed | NativeTable.AsWrittenLoopNeverExits | NativeTable.ExhaustedStreamEndsRecords |
