# cbag: net names, geometry queries, sorted containers, searches and GDSII in Dafny

cbag is the C++ backend of an analog layout and schematic generator. This project models the parts of
it whose correctness is not visible from reading one function, and proves what they promise:

- **Net names.** A name is a tree of repeated units and lists that stands for a list of bits. The model
  covers the bit enumeration, the CDBA grammar and printer (print then parse keeps the bits), the Verilog
  printer (what it writes denotes the same bits if and only if a readable condition on the name holds),
  and `get_partition`, which cuts a name into equal chunks without expanding it.
- **Netlisting and schematic edits.** The CDL and the Verilog writer connect the same bits. A run of
  connect / rename / copy / array / remove edits keeps the width of every stored net, which is what the
  two writers need, if and only if each edit repeats only nets whose multiplier stays below 2^32; the
  condition is spelled out edit by edit. `get_cv_netlist_info` is proved exact, in both directions.
- **Hierarchical geometry.** The nested lazy iterator, with bounding-box pruning at every level, yields
  exactly the shapes that brute force over the flattened hierarchy finds, in the same order.
- **Sorted containers.** Disjoint intervals (union, difference, intersection, complement as point sets)
  and a sorted map with key renaming by circular shift.
- **Search and number theory.** The galloping search, fresh instance names, minimal wire widths, block
  pitches as least common multiples.
- **GDSII.** Eight-byte reals with their exact loss, and a whole structure body (boxes, polygons, labels,
  instances) written to bytes and read back.

## Layout

| file | contents |
|---|---|
| `Arithmetic`, `Counts`, `Sequences`, `Decimal` | products, quotients and 64-bit wrap-around by repeated addition (with lemmas that tie them to `*`, `/`, `%`); counters; repetition; numerals |
| `NameAst`, `CdbaText`, `NameGrammar`, `RoundTrip` | names, their bits, printer, grammar, round trip |
| `Verilog`, `Partition`, `Netlist` | Verilog text and reader, partition, the two netlist writers |
| `InstanceNets`, `Schematic`, `CellviewInfo` | the nets of one instance, edits of the instance map, net ranges and attributes |
| `Transform`, `GeoIndex`, `GeoIterator` | placements and boxes, the index, the iterator |
| `Intervals`, `SortedMap` | sorted containers |
| `Search`, `BlockPitch` | galloping search and its users, block pitches |
| `GdsReal`, `GdsBytes`, `GdsRecords`, `GdsElements`, `GdsRoundTrip` | GDSII |

`dafny verify dfyconfig.toml` checks everything.

## Conventions

- `cnt_t` is the subset type `cnt` of integers below 2^64. Assigning to a `cnt` proves that the C++
  expression does not wrap; where the code does wrap (range indexing and iteration, the exclusive stop
  below zero, scaled multipliers, size fields below 4 in a GDS header) the model writes the wrap out.
- Exceptions are `Err`, `None` or a `false` result; a contract says exactly when they happen and what the
  state is afterwards.
- A Spirit X3 rule whose error handler answers `fail` turns an expectation failure anywhere inside it into
  a plain mismatch of the whole rule. `NameGrammar` follows the code in this.
- The key order of a sorted map, the electromigration checks of the wire search, and the R-tree (all
  entries whose stored box meets the query box, in a fixed order) are parameters or abstractions; masters
  are frozen once they are placed.

## Exact conditions

Each of these is proved for all inputs, with a lemma or method at one concrete input where the unconditional
statement fails.

- The vector case of the partition helper overwrites the running count. `Partition.PartitionUnit` proves
  that the count comes out right if and only if the unit reaches the end of the chunk under way (or no
  chunk is under way); the caller establishes this, so the whole partition is right on every name.
- `subtract` is set difference if and only if the key lies strictly inside no stored interval
  (`Intervals.SubtractIsDifference`); otherwise the right piece is lost. `Intervals.SubtractInside`: [3, 5)
  from [0, 10) leaves [0, 3).
- Nets are stored as text and the grammar reads 32-bit multipliers, so a repeated net can be read back if
  and only if its scaled multiplier is below 2^32 (`InstanceNets.RepeatedTextMeans`). `Schematic.EditMeans`
  says of each of the five edits, and `Schematic.RunMeans` of any run, that the width invariant holds if and
  only if every repeated net that stays satisfies this; nets after a throw and nets replaced by a later
  connection do not count. `InstanceNets.HugeBroadcast` and `Schematic.BrokenRun`: terminal
  `a<0:4294967295>` connected to net `b`.
- The Verilog text of a name denotes its bits if and only if base names are identifiers and every group
  under a multiplier above 1 prints its own braces (`Verilog.VerilogDenotesBits`).
  `Verilog.NestedMultiplier`: the name `<*3>(<*2>a)`.
- The complement of the empty list within an empty bound holds one empty interval, so it is not a disjoint
  vector (`Intervals.GetComplement`, at [0, 0) in `Intervals.EmptyComplement`); complementing it once more
  still gives back the point set.
- A GDS name comes back unchanged if and only if its length is even: an odd one keeps its padding byte, and
  a name of 65531 bytes, which the writer's size assertion lets pass, makes the size field wrap to 0 and is
  refused (`GdsRoundTrip.NameReads`, `GdsRoundTrip.OddName`). So a structure body is read back if and only if
  no name has that length and every master is known under its padded name (`GdsRoundTrip.BodyReads`).
- A double comes back from its GDS code if and only if its exponent is not a multiple of 4 or its
  significand is even (`GdsReal.ExactOrOneUnit`); the error is at most 2^-52 of its value
  (`GdsReal.ErrorBound`). `GdsReal.LostBit`: the double after 1/2.

## Model

| member | source | states |
|---|---|---|
| NameAst.RangeSize | src/cbag/spirit/ast.cpp:52-60 | the computed size is the number of steps of the interval that fit, with no wrap-around |
| NameAst.AtExact | src/cbag/spirit/ast.cpp:82-84 | inside the range the wrapping index expression is exact and stays between start and stop |
| NameAst.StopExcludeIsFresh | src/cbag/spirit/ast.cpp:77-80 | the exclusive stop differs from every index before it, even when it wraps below zero |
| NameAst.BoundsAreHull | src/cbag/spirit/ast.cpp:62-75 | bounds contain every index and both ends are attained, for rising and falling ranges |
| NameAst.NextAt | src/cbag/spirit/ast.cpp:28-34 | one wrapping increment moves from entry i to entry i + 1 |
| NameAst.RangeIterator.Increment | src/cbag/spirit/ast.cpp:28-34 | the new value, modulo 2^64, in the direction of the range |
| NameAst.Indices | src/cbag/spirit/ast.cpp:79-84 | iterating until the iterator equals the end visits exactly the entries 0 to size - 1 |
| NameAst.WfUnitFits | src/cbag/spirit/ast.cpp:93-95 | a well-formed unit has at least one bit and size() counts them |
| NameAst.NameSize | src/cbag/spirit/ast.cpp:233-239 | the accumulated size is the number of bits |
| NameAst.RepSize | src/cbag/spirit/ast.cpp:179-183 | multiplier times data size is the number of bits |
| NameAst.DataSize | src/cbag/spirit/ast.cpp:181-183 | the visited size is the number of bits of the data |
| NameAst.GetNameBits | include/cbag/spirit/util.h:74-79 | the emitted names are exactly the bits of the list, in order |
| NameAst.GetRepBits | include/cbag/spirit/util.h:48-72 | replaying the cache gives the data's bits repeated |
| NameAst.GetDataBits | include/cbag/spirit/util.h:25-34 | one bit for a scalar, one for each index of a vector |
| NameAst.SubRange | include/cbag/spirit/util.h:93-101 | a range rebuilt from entry a to entry b - 1 (or to the old stop) has exactly the entries a to b - 1 |
| NameAst.SubUnitBits | include/cbag/spirit/util.h:93-101 | the rebuilt unit denotes the slice of bits |
| Partition.PartitionUnit | include/cbag/spirit/util.h:81-116 | no bit is lost, every emitted name is a full chunk, and the running count is right if and only if the unit reaches the end of the chunk under way |
| Partition.PartitionRep | include/cbag/spirit/util.h:122-160 | emitted names and pending list denote the old pending bits followed by the repeated name's bits; every emitted name is a full chunk; the count is the pending size |
| Partition.FillChunk | include/cbag/spirit/util.h:136-152 | the branch with repetitions left over uses up the whole repetitions that fit and one more when the chunk ends inside it |
| Partition.PartitionData | include/cbag/spirit/util.h:143-151 | reached only when less than one repetition fits; that is the precondition the unit case needs |
| Partition.PartitionName | include/cbag/spirit/util.h:162-168 | the same for a list of repeated names |
| Partition.GetPartition | include/cbag/spirit/util.h:170-177 | the outputs' bits concatenate to the name's bits; all but the last have exactly chunk bits, the last 1 to chunk; well-formedness and Verilog expressibility are kept |
| Partition.PieceIsSlice | include/cbag/spirit/util.h:170-177 | piece i denotes the bits from i times chunk on |
| Partition.PartitionCount | include/cbag/spirit/util.h:170-177 | a name of n times chunk bits gives exactly n pieces of chunk bits |
| Decimal.NumeralRead | src/cbag/spirit/ast.cpp:97-110 | a printed number has the value it was printed from |
| Decimal.ReadNumeral | include/cbag/spirit/range_def.h:48-49 | a printed number is read back if and only if it is below 2^32 |
| CdbaText.NameToString | src/cbag/spirit/ast.cpp:241-253 | the accumulating loop prints the comma-separated list the round trip is about |
| CdbaText.RepToString | src/cbag/spirit/ast.cpp:185-195 | the printed form of a repeated name that the round trip is about |
| NameGrammar.ParseRange | include/cbag/spirit/range_def.h:25-49 | an accepted range has 32-bit numbers and a positive step and consumes input; the rule never throws |
| NameGrammar.ParseUnit | include/cbag/spirit/name_unit_def.h:23-38 | an accepted unit is well-formed; a failed range leaves the bare base name |
| NameGrammar.ParseRep | include/cbag/spirit/name_def.h:40-65 | an accepted repeated name has a positive 32-bit multiplier and well-formed data |
| NameGrammar.ParseName | include/cbag/spirit/name_def.h:67-71 | an accepted list is non-empty and well-formed |
| NameGrammar.NameOf | include/cbag/spirit/parsers.h:19-52 | accepted only when non-empty and wholly consumed; the result is well-formed |
| RoundTrip.RangeReads | include/cbag/spirit/range_def.h:36-49 | a printed range is read back, with defaults when it has one entry |
| RoundTrip.UnitReads | include/cbag/spirit/name_unit_def.h:29-38 | a printed unit followed by a separator is read back with the same bits |
| RoundTrip.FlatMeaning | src/cbag/spirit/ast.cpp:185-195 | splicing groups under the multiplier 1 changes neither text nor bits |
| RoundTrip.GroupReads | include/cbag/spirit/name_def.h:42-50 | whichever alternative takes a parenthesised group, its bits are those of the group |
| RoundTrip.AtomReads | include/cbag/spirit/name_def.h:52-65 | a printed unit or multiplied group is read back with the same bits and nothing more consumed |
| RoundTrip.ListReads | include/cbag/spirit/name_def.h:67-71 | a printed list is read back whole |
| RoundTrip.PrintParse | src/cbag/spirit/ast.cpp:241-253 | printing any well-formed name and parsing the text succeeds, consumes everything and keeps the bits |
| RoundTrip.ParsePrintParse | include/cbag/spirit/parsers.h:19-52 | any accepted text survives parse, print, parse |
| RoundTrip.LargeMultiplierRejected | include/cbag/spirit/name_def.h:40-40 | a multiplier of 2^32 or more prints as text that is rejected |
| Verilog.SelectBits | src/cbag/spirit/ast.cpp:117-120 | a part select with step 1 denotes the unit's bits in either direction |
| Verilog.SteppedReads | src/cbag/spirit/ast.cpp:121-132 | a stepped vector prints as a concatenation that denotes its bits |
| Verilog.UnitReadsV | src/cbag/spirit/ast.cpp:112-136 | a printed unit denotes its bits |
| Verilog.RepReadsV | src/cbag/spirit/ast.cpp:197-221 | a printed repeated name is a Verilog expression if and only if it is expressible, and then denotes the repeated bits |
| Verilog.NameReadsV | src/cbag/spirit/ast.cpp:255-260 | the same for a list with or without outer braces |
| Verilog.VerilogDenotesBits | src/cbag/spirit/ast.cpp:112-260 | the text read by section 5.1.14 of IEEE 1364-2005 denotes the name's bits if and only if the name is expressible |
| Verilog.NestedMultiplier | src/cbag/spirit/ast.cpp:213-218 | `<*3>(<*2>a)` prints as `{3{2{a}}}`, which is no Verilog expression |
| Netlist.ParseTermsMean | src/cbag/netlist/verilog.cpp:144-151 | succeeds if and only if every terminal is connected and both its names parse; each result is the parsed terminal and net |
| Netlist.TermNetPairs | src/cbag/netlist/cdl.cpp:137-152 | terminal widths and the full bit lists of the nets |
| Netlist.CdlRows | src/cbag/netlist/cdl.cpp:182-198 | line i lists the slice from i times width to (i + 1) times width of every net |
| Netlist.CdlRow | src/cbag/netlist/cdl.cpp:186-194 | the counters collect exactly one element's slice of each net |
| Netlist.CdlPlainRow | src/cbag/netlist/cdl.cpp:104-115 | a single instance lists every bit, whatever the width of its nets |
| Netlist.SplitArrayInstNets | src/cbag/netlist/verilog.cpp:141-158 | exactly n pieces per terminal, piece i being slice i |
| Netlist.SplitNet | src/cbag/netlist/verilog.cpp:150-156 | cutting one net by the terminal width gives one piece for each element |
| Netlist.VerilogRows | src/cbag/netlist/verilog.cpp:187-209 | the ports of element i, read as Verilog, connect slice i of every net |
| Netlist.VerilogPlainRow | src/cbag/netlist/verilog.cpp:115-137 | the ports of a single instance connect every bit, whatever the width of its nets |
| Netlist.WholeIsRow | src/cbag/netlist/cdl.cpp:104-115 | with matching widths a single instance is an array of one element |
| Netlist.CdlInstance | src/cbag/netlist/cdl.cpp:154-201 | one line for each element, with its slices, or with every bit for a single instance; fails exactly when a name or connection is bad |
| Netlist.VerilogInstance | src/cbag/netlist/verilog.cpp:160-211 | one port list for each element that connects its slices, or every bit for a single instance; fails exactly when a name or connection is bad |
| Netlist.WriteBoth | src/cbag/netlist/verilog.cpp:181-206 | both writers fail together, and otherwise connect the same bits for every element |
| InstanceNets.RepeatedBits | src/cbag/spirit/ast.cpp:262-281 | repeating a name repeats its bits, and the scaled multiplier does not wrap |
| InstanceNets.RepeatedTextMeans | src/cbag/spirit/ast.cpp:262-281 | the printed repeated net parses if and only if its multiplier is below 2^32, and then denotes the bits repeated |
| InstanceNets.ConnectedSucceeds | src/cbag/schematic/instance.cpp:45-62 | connecting succeeds if and only if both names parse and the net's width divides the wanted width |
| InstanceNets.ConnectedMeans | src/cbag/schematic/instance.cpp:43-67 | the stored net has exactly the wanted width if and only if its multiplier is storable, and then is the given net repeated |
| InstanceNets.HugeBroadcast | src/cbag/schematic/instance.cpp:62-65 | connecting `a<0:4294967295>` of a single instance to `b` succeeds and stores text that cannot be read back |
| InstanceNets.StringOrder | include/cbag/schematic/instance.h:31-31 | the order of the connection map is a strict total order |
| InstanceNets.ResizedMeans | src/cbag/schematic/instance.cpp:86-99 | resizing right nets never throws, and each net that stays is right if and only if its own repetition is storable |
| InstanceNets.ResizeKeeps | src/cbag/schematic/instance.cpp:86-99 | resizing keeps every width right if and only if it repeats nothing or every repeated net is storable |
| InstanceNets.ResizedNetMeans | src/cbag/schematic/instance.cpp:92-97 | a resized net is the old bit list repeated |
| InstanceNets.WalkStops | src/cbag/schematic/instance.cpp:93-97 | the loop that throws has rewritten exactly the nets whose key comes before every unreadable one |
| InstanceNets.Instance.UpdateConnection | src/cbag/schematic/instance.cpp:43-67 | stores the direct or broadcast net; a throw changes nothing |
| InstanceNets.Instance.ResizeNets | src/cbag/schematic/instance.cpp:86-99 | every net repeated, or all dropped, or a throw at the first unreadable net in key order |
| InstanceNets.Instance.RepeatEach | src/cbag/schematic/instance.cpp:93-97 | the nets reached are repeated, the others unchanged; throws exactly when some net is unreadable |
| InstanceNets.Instance.ConnectEach | include/cbag/schematic/cellview_inst_mod.h:51-53 | the connections up to the first throw are made |
| InstanceNets.ConnectAllMeans | include/cbag/schematic/cellview_inst_mod.h:51-53 | afterwards every net is right if and only if the untouched ones were and every connection that lasts is storable; returns normally if and only if all are made |
| Schematic.ConnectMeans | src/cbag/schematic/instance.cpp:43-73 | connecting keeps the invariant if and only if the repeated net is storable |
| Schematic.RenameMeans | src/cbag/schematic/cellview.cpp:164-183 | renaming keeps the invariant if and only if nothing is repeated or every repeated net is storable |
| Schematic.CopyMeans | include/cbag/schematic/cellview_inst_mod.h:25-54 | a copy, also one that throws half way, keeps the invariant if and only if its lasting connections and its unreplaced repeated nets are storable; and when it returns normally |
| Schematic.CopyExtends | include/cbag/schematic/cellview_inst_mod.h:25-54 | a copy adds at most one instance and changes none |
| Schematic.CopyAllMeans | include/cbag/schematic/cellview_inst_mod.h:75-81 | a sequence of copies keeps the invariant if and only if every copy that is begun is storable |
| Schematic.ArrayMeans | include/cbag/schematic/cellview_inst_mod.h:56-85 | arraying keeps the invariant under the same condition, whether or not the original goes |
| Schematic.EditMeans | src/cbag/schematic/instance.cpp:43-99 | each of the five edits keeps instance size times terminal width for every stored net if and only if what it repeats, and stays, is storable |
| Schematic.RunMeans | src/cbag/schematic/cellview.cpp:164-185 | over any run of edits, throwing ones included, the invariant holds all along if and only if every edit, in the state it meets, satisfies its condition |
| Schematic.BrokenRun | src/cbag/schematic/instance.cpp:62-65 | one connection over a very wide terminal breaks the invariant |
| Schematic.ConsistentNetlists | src/cbag/netlist/verilog.cpp:160-211 | the invariant is the width condition both netlist writers need |
| Schematic.UnitIsRep | src/cbag/schematic/instance.cpp:69-73 | a name unit parses as a repeated name of the same size |
| Schematic.Cellview.UpdateConnection | src/cbag/schematic/instance.cpp:69-73 | one terminal of one instance changes; refused for names that are not units |
| Schematic.Cellview.RenameInstance | src/cbag/schematic/cellview.cpp:164-183 | the new instance map, and whether the call throws, before or after the key is replaced |
| Schematic.Cellview.ReplaceKey | src/cbag/schematic/cellview.cpp:172-174 | the instance moves to the new key and no other entry changes |
| Schematic.Cellview.RemoveInstance | src/cbag/schematic/cellview.cpp:185-185 | exactly the named entry goes |
| Schematic.Cellview.CopyInstance | include/cbag/schematic/cellview_inst_mod.h:25-54 | the new instance map, including what stays after a throw |
| Schematic.Cellview.ArrayInstance | include/cbag/schematic/cellview_inst_mod.h:56-85 | copies replace the original; after a throw the original stays with the copies made so far |
| Schematic.SizeOf | include/cbag/schematic/cellview_inst_mod.h:43-43 | the computed instance size is the number of elements |
| CellviewInfo.LegalNext | src/cbag/schematic/cellview_info.cpp:75-108 | a use is accepted exactly when the uses stay legal, whatever the order |
| CellviewInfo.HullNext | src/cbag/schematic/cellview_info.cpp:109-119 | widening with min and max keeps the exact hull |
| CellviewInfo.Registry.RegisterAttr | src/cbag/schematic/cellview_info.cpp:75-89 | a different attribute under the same base name is refused, a new one recorded |
| CellviewInfo.Registry.RegisterRange | src/cbag/schematic/cellview_info.cpp:91-119 | a net with a terminal's base name must be a scalar like it or lie inside its range; others widen their entry |
| CellviewInfo.Registry.RegisterUnit | src/cbag/schematic/cellview_info.cpp:72-120 | fails exactly when the use makes the uses illegal; otherwise both tables stay exact |
| CellviewInfo.Registry.RegisterRep | src/cbag/schematic/cellview_info.cpp:126-140 | every unit below is registered once, whatever the multiplier |
| CellviewInfo.Registry.RegisterName | src/cbag/schematic/cellview_info.cpp:142-148 | the same for a list |
| CellviewInfo.ReadTerminals | src/cbag/schematic/cellview_info.cpp:156-178 | the terminal tables, or an error on the first malformed terminal |
| CellviewInfo.TermTablesMean | src/cbag/schematic/cellview_info.cpp:171-177 | every terminal has an entry, and every entry is the range of some terminal |
| CellviewInfo.RegisterConns | src/cbag/schematic/cellview_info.cpp:185-193 | fails exactly when a name is malformed or a use illegal |
| CellviewInfo.RegisterInsts | src/cbag/schematic/cellview_info.cpp:180-194 | the same over all instances, with unknown masters |
| CellviewInfo.GetCvNetlistInfo | src/cbag/schematic/cellview_info.cpp:150-202 | succeeds if and only if all names parse, all masters are known and the uses are legal; the net ranges are then exact hulls and the attributes exactly those given |
| CellviewInfo.ListCarried | src/cbag/schematic/cellview_info.cpp:142-148 | every bit of a net comes from a registered unit |
| CellviewInfo.NetsCovered | src/cbag/schematic/cellview_info.cpp:150-199 | after success every net bit lies in its terminal's range or its recorded net range |
| Transform.MakeXformPlaces | src/cbag/common/transformation_util.cpp:24-36 | the origin goes to the given location, other points to their oriented images shifted there |
| Transform.TransformByComposes | src/cbag/common/transformation_util.cpp:92-101 | transform_by acts as composition, first the receiver; axis swaps combine by exclusive or |
| Transform.InvertUndoes | src/cbag/common/transformation_util.cpp:86-90 | invert is a two-sided inverse on points |
| Transform.TransformedTwice | src/cbag/common/box_t_util.cpp:114-119 | transforming a box twice is transforming it by the composition |
| Transform.ExpandTransforms | src/cbag/common/box_t_util.cpp:106-119 | expanding commutes with placing, margins swapped when the axes are |
| Transform.OverlapTransforms | src/cbag/common/box_t_util.cpp:114-119 | overlap is unchanged by placing both boxes |
| Transform.OverlapPullsBack | src/cbag/layout/geo_instance.cpp:22-31 | testing a placed shape is testing the shape against the query pulled back, margins swapped |
| GeoIndex.Index.InsertShape | src/cbag/layout/geo_object.cpp:19-43 | refused exactly for an invalid box; otherwise stored with its margin box |
| GeoIndex.Index.InsertInstance | src/cbag/layout/geo_index.cpp:34-38 | an empty master is skipped; any other is stored with the placed bounds of its contents |
| GeoIndex.BoundsValid | src/cbag/layout/geo_index.cpp:14-20 | the bounds of a non-empty index are valid and contain every stored box |
| GeoIndex.FlattenInside | src/cbag/layout/geo_instance.cpp:17-20 | stored boxes enclose every shape below them with its margins, at any depth |
| GeoIndex.HitsPruned | src/cbag/layout/geo_index.cpp:22-32 | an entry the tree query skips holds no hit |
| GeoIndex.MeetsPullsBack | src/cbag/layout/geo_instance.cpp:22-31 | contact with the grown query box can be decided on either side of a placement |
| GeoIndex.WalkIsBruteForce | src/cbag/layout/geo_index.cpp:22-32 | the pruned traversal under any placement is brute force over the flattened shapes, in depth-first order |
| GeoIndex.EntryIsBruteForce | src/cbag/layout/geo_iterator.cpp:32-47 | the same for one entry: kept shapes, kept instances and pruned entries |
| GeoIterators.GeoIterator.constructor | src/cbag/layout/geo_iterator.cpp:81-85 | at rest on the first hit of the query, with all hits still to come |
| GeoIterators.GeoIterator.VisitCurrent | src/cbag/layout/geo_iterator.cpp:26-49 | enters an instance, skips a shape that misses, or stops on a hit with its placed box; the hits to come are unchanged |
| GeoIterators.GeoIterator.GetValReference | src/cbag/layout/geo_iterator.cpp:52-76 | terminates at rest, also past instances whose inner query is empty, without losing a hit |
| GeoIterators.GeoIterator.Next | src/cbag/layout/geo_iterator.cpp:89-97 | exactly the first of the hits to come is dropped |
| GeoIterators.TestShape | src/cbag/layout/geo_iterator.cpp:38-43 | a shape is kept when it overlaps the query grown by the larger spacings |
| GeoIterators.BeginIntersect | src/cbag/layout/geo_instance.cpp:22-31 | an iterator over exactly the hits below one placed master |
| GeoIterators.BeginIntersectIndex | src/cbag/layout/geo_index.cpp:22-32 | an iterator over exactly the placed hits of one index |
| GeoIterators.Collect | src/cbag/layout/geo_iterator.cpp:87-97 | stepping until has_next is false yields each hit once, in order |
| GeoIterators.FindAll | src/cbag/layout/geo_iterator.cpp:52-97 | a whole query returns what brute force over the flattened hierarchy returns |
| Intervals.LowerBound | include/cbag/util/sorted_vector.h:92-108 | first interval that does not end before the key |
| Intervals.EqualRange | include/cbag/util/interval.h:151-153 | the run of stored intervals that overlap the key, and only those |
| Intervals.DisjointIntvs.Remove | include/cbag/util/interval.h:244-250 | removes exactly the interval equal to the key |
| Intervals.DisjointIntvs.RemoveOverlaps | include/cbag/util/interval.h:252-258 | removes exactly the intervals that overlap the key |
| Intervals.DisjointIntvs.Subtract | include/cbag/util/interval.h:260-291 | stays sorted and disjoint; the points that remain, including the piece lost when the key is strictly inside |
| Intervals.SubtractIsDifference | include/cbag/util/interval.h:260-291 | subtract is set difference if and only if the key is strictly inside no interval |
| Intervals.SubtractInside | include/cbag/util/interval.h:269-276 | [3, 5) subtracted from [0, 10) leaves only [0, 3) |
| Intervals.DisjointIntvs.Emplace | include/cbag/util/interval.h:293-324 | refuses exactly empty items and, without merging, overlapping ones; otherwise the point set is the union and one interval holds the item |
| Intervals.DisjointIntvs.MergeInto | include/cbag/util/interval.h:308-320 | one interval replaces the run; the point set is the union |
| Intervals.DisjointIntvs.InsertUnique | include/cbag/util/sorted_vector.h:128-133 | inserted at the one place that keeps the order |
| Intervals.IntersectHelper | include/cbag/util/interval.h:128-142 | adds exactly the shared points, and skipping ahead loses none that later intervals need |
| Intervals.GetIntersection | include/cbag/util/interval.h:166-188 | sorted and disjoint, and the point set is the intersection |
| Intervals.GetComplement | include/cbag/util/interval.h:189-213 | fails exactly when intervals stick out of the bounds; otherwise the point set is the difference, within the bounds |
| Intervals.ComplementTwice | include/cbag/util/interval.h:189-213 | complementing twice gives back the point set, also within an empty bound |
| Intervals.EmptyComplement | include/cbag/util/interval.h:193-194 | the complement of the empty list in [0, 0) is one empty interval |
| SortedMaps.SortedMap.Find | include/cbag/util/sorted_vector.h:92-102 | the position of the key, or the end exactly when it is not in the map |
| SortedMaps.SortedMap.LowerBound | include/cbag/util/sorted_map.h:73-75 | first position whose key is not below the given one |
| SortedMaps.SortedMap.UpperBound | include/cbag/util/sorted_map.h:77-77 | first position whose key is above the given one |
| SortedMaps.SortedMap.InsertOrAssign | include/cbag/util/sorted_map.h:114-122 | map update; tells whether the key was new |
| SortedMaps.SortedMap.Erase | include/cbag/util/sorted_map.h:124-131 | map removal; the number of pairs removed |
| SortedMaps.SortedMap.CircShift | include/cbag/util/sorted_vector.h:165-179 | one element moves across the others, which shift by one |
| SortedMaps.SortedMap.ReplaceKey | include/cbag/util/sorted_map.h:133-177 | refines renaming in the mathematical map; the multiset of values is unchanged; the returned position holds the new key; a missing old or taken new key changes nothing |
| SortedMaps.SortedMap.RenameUp | include/cbag/util/sorted_map.h:142-158 | the branch for a larger key |
| SortedMaps.SortedMap.RenameDown | include/cbag/util/sorted_map.h:159-176 | the branch for a smaller key |
| SortedMaps.AsMapOf | include/cbag/util/sorted_map.h:83-85 | a sorted vector holds exactly the pairs of one map |
| Search.BinaryIterator.Up | include/cbag/util/binary_iterator.h:27-38 | gallops while there is no upper end, bisects afterwards |
| Search.BinaryIterator.Down | include/cbag/util/binary_iterator.h:40-43 | the current value becomes the upper end |
| Search.FindFirst | src/cbag/layout/cellview.cpp:65-75 | for any predicate that holds from some point on, ends on a value that satisfies it; for a monotone one on the least such value, within two probes per binary digit and two more |
| Search.FreeFrom | src/cbag/layout/cellview.cpp:67-67 | a finite map leaves all automatic names free from some index on, so the search ends |
| Search.AutoNameInjective | src/cbag/layout/cellview.cpp:67-67 | different counters give different names |
| Search.Cellview.AddInst | src/cbag/layout/cellview.cpp:57-77 | exactly one instance is added under a fresh name, none is lost or overwritten |
| Search.GetMinNumTr | src/cbag/layout/routing_grid_util.cpp:256-291 | a number of tracks that passes all checks; the least one when the checks together are monotone |
| BlockPitch.LcmUniversal | src/cbag/layout/routing_grid.cpp:42-43 | the least common multiple divides exactly the common multiples |
| BlockPitch.LcmDouble | src/cbag/layout/routing_grid.cpp:42-43 | doubling both arguments doubles the result |
| BlockPitch.FoldList | src/cbag/layout/routing_grid.cpp:38-44 | folding the earlier results in gives the least common multiple of all pitches so far; twice the half pitch when all are even |
| BlockPitch.UpdateGroup | src/cbag/layout/routing_grid.cpp:27-47 | every level of the group gets the least common multiple of the same-direction pitches at or below it; other levels are unchanged |
| BlockPitch.UpdateBlockPitch | src/cbag/layout/routing_grid.cpp:49-67 | ignored levels get -1, the private and the public group are each right on their own |
| GdsReal.OrIsSum | src/cbag/gdsii/math.cpp:53-55 | combining fields without a common bit by or is adding them |
| GdsReal.FieldsDisjoint | src/cbag/gdsii/math.cpp:47-55 | sign, 7-bit exponent and 56-bit mantissa never overlap |
| GdsReal.RoundTrip | src/cbag/gdsii/math.cpp:21-72 | encode then decode gives the sign and exactly the shifted significand |
| GdsReal.ExactOrOneUnit | src/cbag/gdsii/math.cpp:21-72 | the written number comes back if and only if its exponent is no multiple of 4 or its significand is even; otherwise one unit less comes back |
| GdsReal.ErrorBound | src/cbag/gdsii/math.cpp:21-72 | whatever comes back is at most the written number and short of it by at most 2^-52 of it |
| GdsReal.LostBit | src/cbag/gdsii/math.cpp:47-49 | the double after 1/2 comes back as 1/2 |
| GdsReal.AngleRoundTrip | src/cbag/gdsii/read_util.cpp:144-159 | 90, 180 and 270 survive encoding, decoding and truncation |
| GdsBytes.DecodeEncode | include/cbag/gdsii/write_util.h:18-24 | big-endian bytes give back the value |
| GdsBytes.OStream.WriteBytes | include/cbag/gdsii/write_util.h:18-24 | the shift loop appends the big-endian bytes |
| GdsBytes.IStream.ReadBytes | include/cbag/gdsii/read_util.h:28-36 | the shift-and-combine loop reads their value |
| GdsRecords.Write | src/cbag/gdsii/write_util.cpp:74-95 | size rounded up to even, type, values, padding byte |
| GdsRecords.WritePoints | src/cbag/gdsii/write_util.cpp:121-131 | one XY record that holds the points with the first repeated last |
| GdsRecords.ReadHeader | src/cbag/gdsii/read_util.cpp:18-23 | type and data size, with the wrap of a size below 4 |
| GdsRecords.PeekHeader | src/cbag/gdsii/read_util.cpp:25-29 | the header is reported and nothing consumed |
| GdsRecords.CheckHeader | src/cbag/gdsii/read_util.cpp:37-55 | refuses exactly a wrong type, unit or count |
| GdsRecords.ReadName | src/cbag/gdsii/read_util.cpp:80-88 | as many bytes as the header announces, or an error when no string holds them |
| GdsRecords.ReadPoints | src/cbag/gdsii/read_util.cpp:164-168 | pairs of signed 32-bit coordinates |
| GdsElements.WriteTransform | src/cbag/gdsii/write_util.cpp:157-191 | STRANS, MAG only when not 1, ANGLE only when not 0, XY |
| GdsRoundTrip.MeantBack | src/cbag/gdsii/write_util.cpp:133-155 | each orientation gives a right angle and the mirror bit, namely those whose mirror-then-rotate is that orientation |
| GdsElements.ReadTransform | src/cbag/gdsii/read_util.cpp:118-178 | what the optional records mean, and the errors |
| GdsElements.WriteBox | src/cbag/gdsii/write_util.cpp:247-260 | the bytes of a box element |
| GdsElements.WritePolygon | src/cbag/gdsii/write_util.cpp:238-245 | the bytes of a boundary element |
| GdsElements.WriteText | src/cbag/gdsii/write_util.cpp:286-296 | the bytes of a text element |
| GdsElements.WriteInstance | src/cbag/gdsii/write_util.cpp:272-284 | the bytes of a single placement with its name property |
| GdsElements.ReadBox | src/cbag/gdsii/read_util.cpp:197-214 | five points under layer and purpose |
| GdsElements.ReadBoundary | src/cbag/gdsii/read_util.cpp:216-234 | half as many points as coordinates |
| GdsElements.ReadText | src/cbag/gdsii/read_util.cpp:184-195 | text, placement and magnification |
| GdsElements.ReadInstName | src/cbag/gdsii/read_util.cpp:236-259 | the property's name, or a made-up one that counts up |
| GdsElements.ReadInstance | src/cbag/gdsii/read_util.cpp:261-276 | refused when the master is unknown |
| GdsElements.ReadBody | src/cbag/gdsii/read.cpp:98-147 | elements in order until the end record; other records are errors |
| GdsRoundTrip.CheckReads | src/cbag/gdsii/read_util.cpp:37-55 | every record written with its own type, unit and count passes the check |
| GdsRoundTrip.NameReads | src/cbag/gdsii/read_util.cpp:80-88 | a name comes back with its padding, and not at all at 65531 bytes; so unchanged if and only if its length is even |
| GdsRoundTrip.OddName | src/cbag/gdsii/read_util.cpp:80-88 | a one-byte name comes back with two bytes |
| GdsRoundTrip.HeaderReads | src/cbag/gdsii/write_util.cpp:78-88 | the size that the reader gets from a written header, with the wrap at 65531 data bytes |
| GdsRoundTrip.PointsRead | src/cbag/gdsii/read_util.cpp:164-168 | written points come back, negative coordinates included |
| GdsRoundTrip.OrientedBack | src/cbag/gdsii/read_util.cpp:122-159 | mirror and rotation restore each of the eight orientations |
| GdsRoundTrip.AngleFlagInjective | src/cbag/gdsii/write_util.cpp:133-155 | different orientations are written differently |
| GdsRoundTrip.MagAngleReads | src/cbag/gdsii/read_util.cpp:127-142 | all four combinations of present and absent MAG and ANGLE are told apart |
| GdsRoundTrip.TransformReads | src/cbag/gdsii/read_util.cpp:118-182 | every single placement comes back with its orientation, location and magnification, all bytes used |
| GdsRoundTrip.BoxReads | src/cbag/gdsii/read_util.cpp:197-214 | a box comes back as its five corner points |
| GdsRoundTrip.BoundaryReads | src/cbag/gdsii/read_util.cpp:216-234 | a boundary gives the points of its record |
| GdsRoundTrip.PolygonReads | src/cbag/gdsii/write_util.cpp:238-245 | a written polygon comes back with its first point repeated last |
| GdsRoundTrip.TextReads | src/cbag/gdsii/read_util.cpp:184-195 | a label comes back with its padded text, unless the text makes the size wrap |
| GdsRoundTrip.InstanceReads | src/cbag/gdsii/read_util.cpp:261-276 | an instance comes back if and only if no name makes its size wrap and its padded master name is known |
| GdsRoundTrip.ElementReads | src/cbag/gdsii/read.cpp:109-146 | the same for any element; no made-up name is ever used |
| GdsRoundTrip.BodyReads | src/cbag/gdsii/read.cpp:98-147 | a whole body comes back, every byte used, if and only if no name makes its size wrap and every instance's master is known |
| GdsRoundTrip.WriteThenRead | src/cbag/gdsii/read.cpp:98-147 | the same for the writing and reading code run one after the other |

## Left out

- 64-bit sizes: names whose bit count needs 63 bits or more; partition, netlisting and edits require smaller sizes, which the code casts to a signed long unchecked.
- Mismatched widths: for arrayed instances the netlist writers require nets as wide as the instance times the terminal, because the code indexes past the end of the net otherwise; the schematic invariant provides it. Single instances need no such condition.
- Netlist text around the nets: cell names, parameters, line wrapping, net declarations, and the library that the CDL writer skips.
- Part selects are read from left index to right index; whether a declaration elsewhere runs the other way is not modelled.
- The error messages that the parser and the readers throw.
- Instance geometry in schematics: position, bounding box and parameters of an instance, and the default shift of an array; they do not touch nets.
- rename_pin and remove_pin: they rest on the same map renaming and touch no net.
- Net declarations printed from recorded ranges: the printer writes the exclusive bound as if it were inclusive, so only coverage is stated.
- Terminal direction lists and library levels of the netlist map: plain bookkeeping.
- Polygons other than boxes in the geometry index, polygon sets, and the inside of the R-tree.
- Negative spacings, and insertion into an index after it has been placed.
- The postfix increment of the geometry iterator copies a handle to the shared inner iterator; only the prefix form is modelled.
- Overflow of 32-bit layout coordinates outside the GDS codec.
- Interval keys that end before they start, for which the binary searches have no meaning.
- `covers`, `get_transform` and the payloads of stored intervals.
- The circular shift and insertions work on a sequence value instead of moving elements in place; positions and contents are exact, element moves are not counted.
- Search.FindFirst: uses unbounded counters; the two-argument constructor and overflow of a gallop above 2^63 are not modelled.
- Search.GetMinNumTr: the electromigration formulas are parameters; that the search ends rests on some width from which on all checks pass.
- Routing grid: track locations, flip parity, wire widths and the setters that do not recompute pitches.
- GdsReal.RoundTrip: subnormal, infinite and NaN inputs, for which the code has no meaning, and the final rounding of the decoder's floating-point product, which is exact for its mantissa sizes when the value was encoded from a double.
- Reading past the end of a GDS file is an immediate error in the model; the code reads filler bytes and fails at the next header check.
- Array references: the reader divides raw transformed points, so general placements do not come back; the record is an unsupported one in the model.
- Mapping of GDS layers to technology layers, label heights in layout units, library headers, dates and units.
- The via parameter search, via cuts, paths, OpenAccess and YAML conversion, logging and file access.
