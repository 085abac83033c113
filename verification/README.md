# pktc, verified

pktc compiles a description of a packet into the commands that configure the device producing it:
S-expression text is read into values, values are built into protocol trees, a tree is flattened into a
spine of layers, the spine is covered by tiles with greedy longest-match, and each tile is lowered to
`ip` and `wg` commands over a shared allocator of interface names. Three more readings of the same tree
exist: an explanation of the cover, a mirror that derives the far end of the tunnel, and a prediction of
what the wire will show. This project models all of that in Dafny and proves what it promises.

Check it with `dafny verify dfyconfig.toml`.

## How it is laid out

| file | what is in it |
|---|---|
| Basics, Decimal, Netip | results and positions; numerals and their values; the address library as two abstract parsers |
| Sexp, Parser, Grammar, Faults, Reader | values and concrete syntax; parsing as functions of an offset; soundness and completeness; what a failing read reports; the reader object |
| Ast, FrontEnd, Misbuilt, Node | trees and building them; round trips; what a form that is no tree reports; nodes as objects with property arrays |
| Props, Spine | typed properties; flattening |
| Env | the allocator of interface names |
| Command, Shell | rendering to text; a POSIX shell tokeniser (POSIX.1-2017, Shell Command Language, sections 2.2.2, 2.2.3 and 2.3) that undoes it |
| Machine | decoded commands, and an abstract machine of devices, links, addresses and devices that are up |
| Linux | the six lowerings: what each means, and the code emitting its commands |
| Tile, Cover, Selection, Explain | registries, the covering loop, when greedy is the only maximal cover, the second walk |
| Said, Scripts, Refusals | what layers say under their keys; the script of every tile and rule in those words; what is reported instead |
| Safety | scripts of whole files running on the machine |
| Mirror, Involution, Peering | mirroring on values; when mirroring twice restores a packet; mirroring in place on a clone |
| Devices, Symmetry | the device each lowering adds; the near and the far end lowered side by side, and exactly when they face each other |
| Turned | the far end's file in the words of the near end's |
| FarEnd, Examples | when the far end can be covered at all; concrete stacks on both sides of those conditions |
| Wire | the prediction, and its agreement with the lowering |

Bytes are characters. The parts of the program that change state are classes and methods over them (the
reader, Env, Node with its property array, the mirror's edits) or methods with loops, each proved against a
function of the inputs; the properties are proved of those functions.

The address library is a record of two functions, so every theorem holds for any of them. Three laws about it
are used, and always named: `PrefixLaw` (a prefix has a slash, its address is what stands before the first
one, and its text is not itself an address), `LengthLaw` (which lengths fit depends on the address family) and
`SlashLaw` (printing an address keeps what follows a slash in it, which only a zone can hold, and no address
begins with one). `LawsCanHold` gives a library that keeps all three; the examples are read by it.

`mirror/mirror.go` derives the far end of any tree. Its devices are the other ends of the near one's tunnels not
always but exactly when `Symmetry.AllReversible` holds, tile by tile: a point-to-point tunnel's addresses have
the same tail after a slash, if any; a VXLAN names no group at either end, and if it carries the innermost
address itself, the address given for the far end is the one its `:dst` names. `GroupIsNoPeer`, `OverwrittenEnd`
and `ZoneIsCut` are inputs on the other side; the first is the stack of `testdata/vxlan-multicast.lisp`.

What the program computes is stated twice, and the two are proved equal: once as functions that follow the code,
and once without them. The concrete syntax spells out its own characters, digits and escapes; `Said` reads layers
with `Lookup` and the address library alone, and scripts, refusals, predictions and mirrors are given in its words.

Where the code and its comments part: `spine/spine.go` and `tile/tile.go` call greedy longest-match optimal.
For an arbitrary registry it is not (`GreedyIsNotAlwaysLongest`); for unguarded tiles it is the only maximal
cover exactly when no pattern begins another (`GreedyUniqueExactly`), and the shipped tiles are such a set.

## Model

| member | source | states |
|---|---|---|
| Grammar.ReadsExactlyDocuments | sexp/reader.go:7-159 | Reading succeeds on exactly the renderings of a list of well-formed values, under any layout, comments and choice of escapes, and returns those values, each of the kind it is written as, with the position of its first byte |
| Grammar.ValueHere | sexp/reader.go:68-159 | Completeness: wherever a well-formed form is written, reading there returns it and stops right after it |
| Grammar.FormOf | sexp/reader.go:68-159 | Soundness: whatever a read consumed is the rendering of a well-formed form denoting the value returned |
| Grammar.ItemsOf | sexp/reader.go:81-100 | What was read between parentheses is a sequence of laid-out forms up to the matching close |
| Grammar.ExpectedValueUnreachable | sexp/reader.go:145-154 | The diagnostic about an expected value can never come out of a read |
| Faults.FaultsExactly | sexp/reader.go:7-159 | A read fails with a diagnostic exactly when that is the first thing wrong with the source: after whole forms, a parenthesis with a whole document after it (never closed) or something wrong inside it, a closing one outside all, a string that ends too soon or has a wrong letter after a backslash, or a lone colon; each at its own byte |
| Sexp.ClassifyExactly | sexp/reader.go:161-201 | An atom has the kind of the one bare atom it can be: a star, a keyword, a decimal or hex numeral with an optional minus, or any other word |
| Sexp.PosAtInjective | sexp/reader.go:41-51 | Line and column identify an offset: two offsets never share a position |
| Sexp.PosCounts | sexp/reader.go:41-51 | The line is one more than the newlines before the offset, the column one more than the characters since the last |
| Sexp.LineStart | sexp/reader.go:41-51 | The column is counted from the character after the last newline before the offset |
| Parser.SkipBlank | sexp/reader.go:53-66 | Skipping stops at the first character that is neither space nor in a comment |
| Parser.ParseValue | sexp/reader.go:68-79 | A value read consumes at least one character and stays inside the source |
| Parser.ParseString | sexp/reader.go:102-135 | A string read consumes at least its closing quote and stays inside the source |
| Reader.Reader.Advance | sexp/reader.go:41-51 | One character further, with line and column still those of the offset |
| Reader.Reader.SkipSpace | sexp/reader.go:53-66 | The cursor moves to where SkipBlank says, line and column kept right |
| Reader.Reader.ReadValue | sexp/reader.go:68-79 | The stateful reader returns what the parse at its offset returns, and stands after it |
| Reader.Reader.ReadList | sexp/reader.go:81-100 | The same for a parenthesised form, including which parenthesis an error names |
| Reader.Reader.ReadString | sexp/reader.go:102-135 | The same for a string with its escapes |
| Reader.Reader.ReadAtom | sexp/reader.go:145-159 | The same for an atom |
| Reader.Read | sexp/reader.go:7-21 | The top-level loop computes the parse of the whole source, error positions included |
| Ast.Lookup | ast/node.go:27-34 | The first property with the key, and none exactly when no property has it |
| Node.Node.Find | ast/node.go:27-34 | The scan over the property array finds what Lookup finds |
| Node.Node.Append | ast/node.go:65 | Appending adds one property at the end, in the array it had or in a larger new one |
| Node.BuildNode | ast/node.go:37-85 | Building makes a fresh tree of nodes that stands for the tree the form describes, or refuses at the same position |
| Node.ReadProps | ast/node.go:51-67 | The property loop fills a node with exactly the keyword pairs, refusing duplicates and missing values |
| Node.ReadChildren | ast/node.go:69-83 | The children loop appends one built tree per nested form, in order |
| FrontEnd.BuildErased | ast/node.go:37-85 | Building never looks at positions |
| FrontEnd.BuildUndoesToForm | ast/node.go:37-85 | Building the form of a tree with distinct keys and no keyword values gives that tree |
| FrontEnd.BuildIsFaithful | ast/node.go:37-85 | Every tree built has distinct keys at every depth, and its form is the one it was built from |
| FrontEnd.AnyLayoutBuildsTheTree | ast/node.go:37-85 | However the form of a tree is laid out, reading and building it returns the tree up to positions |
| FrontEnd.PrintReadBuild | sexp/reader.go:7-21 | Printing a tree, then reading and building the text, returns the tree up to positions |
| FrontEnd.BuiltTreesAreBuildable | ast/node.go:37-85 | Every tree read and built from any source has distinct keys at every depth and loses nothing of its form |
| Misbuilt.MisbuiltExactly | ast/node.go:37-85 | Building fails with a diagnostic exactly when that is the first thing wrong with the form: its shape, its head, a key without a value or given twice, a key among the nested forms, an item that is no form, or a nested form that fails so |
| Props.UnsignedExact | ast/props.go:79-93 | A numeric token is accepted exactly when it has no sign and fits the width, and then keeps its value, in decimal or hex |
| Props.RangesExact | ast/props.go:95-119 | The accepted ranges are exactly 0..2^24-1 for a VNI, 1..4094 for a VLAN id and the full width otherwise, and the printed decimal denotes what the token wrote |
| Decimal.DecDenotes | tiles/linux/util.go:5-7 | Decimal rendering denotes the number rendered |
| Decimal.FirstDigit | ast/props.go:79-93 | A numeral denotes its digits by place value in its base |
| Decimal.DecInjective | env/env.go:72 | Two numbers never render alike |
| Decimal.DecMonotone | env/env.go:72 | A larger number never renders shorter |
| Env.Env.constructor | env/env.go:46-54 | A new environment stands on its root, whose name is taken |
| Env.Env.Claim | env/env.go:57-66 | The name itself, or a refusal that changes nothing, exactly when it is no name or taken |
| Env.Env.Alloc | env/env.go:69-81 | The loop ends (in at most 10^15 steps) with what the allocation function says, counters and all |
| Env.Env.Reset | env/env.go:86 | Back to the physical device, every name kept |
| Env.Env.Enter | env/env.go:92-95 | The device is recorded last and becomes the one to attach to |
| Env.AllocIsLeast | env/env.go:69-81 | When every counted index is spent, the name returned carries the least free index, and a refusal means no index gives a free valid name |
| Env.RunKeepsSpent | env/env.go:57-95 | Any calls of Claim, Alloc, Enter and Reset keep every counted index spent |
| Env.AllocComplete | env/env.go:69-81 | In every reachable environment allocation succeeds exactly when a free valid name of the form exists, and returns the least |
| Env.FaultsPersist | env/env.go:97-109 | Once an index gives an invalid name so does every later one |
| Env.NamesExactly | env/env.go:97-109 | A name is valid exactly when it has 1 to 15 characters and no space, slash, tab or newline, and else is refused for the first of these |
| Env.NumberedInjective | env/env.go:72 | Different indices of a prefix never give the same name |
| Command.IsSafe | command/command.go:62-76 | The scan accepts exactly the nonempty strings of safe characters |
| Command.CommandString | command/command.go:24-30 | The line is the quoted arguments joined by spaces |
| Command.Plain | command/command.go:53-59 | The lines of a script joined by newlines |
| Command.Shell | command/command.go:38-50 | Each line after its reason, with a blank line between commands |
| Shell.WordLexes | command/command.go:78-89 | A quoted argument is read by a shell as one word, the argument itself, unless it holds `$(` and no double quote |
| Shell.LiveIsQuoted | command/command.go:82-87 | An argument that does stands between double quotes |
| Shell.LineLexes | command/command.go:24-30 | A rendered command is read as exactly its arguments |
| Shell.PlainReadsBack | command/command.go:53-59 | The plain rendering of a script of nonempty commands is read back as exactly those commands |
| Shell.ShellReadsBack | command/command.go:38-50 | So is the annotated one, when no reason contains a newline |
| Shell.Layout | command/command.go:24-59 | One space between arguments, one newline between lines, a reason after a hash on its own line, an empty line between annotated commands, and a quote written as quote, backslash, quote, quote |
| Machine.ReadsBack | tiles/linux/vxlan.go:99-129 | Every emitted argument vector decodes to the one operation it was emitted for: no two operations share a command |
| Machine.ExecuteIsRun | command/command.go:34 | Executing the emitted commands is running the operations |
| Linux.LowerIPIP | tiles/linux/linux.go:67-91 | Emits the commands, the refusal and the environment the IPIP meaning gives, in every branch |
| Linux.LowerGRE | tiles/linux/linux.go:94-127 | The same for GRE, with a key when one is given |
| Linux.LowerGRETAP | tiles/linux/linux.go:134-161 | The same for GRETAP |
| Linux.LowerVXLAN | tiles/linux/vxlan.go:27-133 | The same for VXLAN: naming, underlay address, and one parameter per concrete field |
| Scripts.VXLANExactly | tiles/linux/vxlan.go:27-133 | It lowers exactly when VNI, port and both ends can be read and the name is free; it then places the prefix of `:src` below, and creates the device with the id, ends, port and underlay its layers say, a star leaving a parameter out and a multicast end making a group |
| Linux.VXLANCommand | tiles/linux/vxlan.go:99-129 | The argument vector grown step by step is the link's: id or external, local when concrete, group exactly for a multicast destination |
| Linux.LowerVLAN | tiles/linux/vlan.go:20-58 | The same for VLAN, named after the device it stands on |
| Scripts.VLANExactly | tiles/linux/vlan.go:20-58 | It lowers exactly for a tag in 1..4094 whose name, the current device's with a dot and the tag, is free |
| Linux.LowerWireGuard | tiles/linux/wireguard.go:32-122 | The same for WireGuard, with an endpoint exactly when the destination is concrete; what the operations are is WireGuardExactly |
| Scripts.WireGuardExactly | tiles/linux/wireguard.go:32-122 | It lowers exactly when peer, listening port, ends and inner network can be read and a name is left; it then listens on the number under `:src-port` with the key file named after the device, knows the peer by its file, sends to the address of `:dst` at the number under `:dst-port` or else the listening port, allows the masked inner network, and places the inner address |
| Scripts.PortsMeet | tiles/linux/wireguard.go:55-64 | Of two stacks with exchanged ports, each listens on the port the other's endpoint names |
| Linux.AddrOn | tiles/linux/linux.go:56-64 | One address command when the layer carries an address, none otherwise |
| Scripts.LoweringExactly | tiles/linux/linux.go:67-161 | Every shape lowers exactly when its layers say what it needs and its name can be had, under a name of its own kind, and writes what they say |
| Refusals.RefusedExactly | tiles/linux/vxlan.go:27-133 | Every shape is refused with exactly the first complaint, in the order of its checks: a value of the wrong kind, out of range, missing or a star, or a name that cannot be had, each at its place |
| Tile.NewRegistry | tile/tile.go:42-60 | Loading accepts exactly the sets without empty patterns, missing lowerings or repeated keys, and refuses the first tile that breaks this for what it breaks |
| Tile.LoadKeyInjective | tile/tile.go:51 | The key text tells patterns and priorities apart when no name contains the separator |
| Tile.LoadableExactly | tile/tile.go:42-60 | So a set loads exactly when no two tiles share a pattern and a priority |
| Tile.LoadedIsUnambiguous | tile/tile.go:42-60 | Whatever the names, a set that loads has no two tiles sharing a pattern and a priority |
| Tile.MatchAt | tile/tile.go:75-98 | The nested loops return every matching tile in registry order |
| Tile.MatchesAtIs | tile/tile.go:75-98 | Those are exactly the tiles of the registry that match there |
| Tile.BestOf | tile/tile.go:101-112 | The scan returns the candidate chosen by length, then priority, then order |
| Tile.GreedyIsChain | tile/cover.go:29-43 | The greedy segmentation matches tile after tile and stops only where nothing matches |
| Selection.GreedyPicks | tile/tile.go:75-112 | Greedy stops exactly where no tile suits the names and the guard; else it takes one that does, longest first, then lowest priority, then first registered |
| Covering.CoverSpine | tile/cover.go:25-72 | The covering loop returns the cover of the spine, or its refusal and no script, and leaves the environment it leaves; what that cover is, is RuleScript |
| Scripts.RuleScript | tile/cover.go:25-72 | A covered rule's script is what its tiles write, each for its own device over the one before, then the address of an IP layer left over on the last device, then every new device brought up; the rest is the payload |
| Scripts.CoverExactly | tile/cover.go:25-72 | A spine is covered exactly when some tile matches first, every tile of the chain lowers, and the layer left over has no address or a good one |
| Refusals.CoverRefuses | tile/cover.go:36-58 | And else is refused for the first of these that fails |
| Scripts.RuleAddresses | tile/cover.go:25-72 | A rule that runs adds to the machine exactly the addresses its layers ask for, each on the device they ask for it on, in order |
| Covering.FinishCover | tile/cover.go:45-71 | After the loop: the leftover address, then every new device brought up; TerminalIs says which |
| Scripts.TerminalIs | tile/cover.go:51-63 | The first layer left over gives an address exactly when it is an IP layer with a readable prefix under `:src`, and is then taken out of the payload |
| Covering.CoverFromIsCover | tile/cover.go:29-43 | Interleaving matching with lowering computes the same as segmenting first and lowering after |
| Selection.OrderDoesNotMatter | tile/tile.go:42-60 | Any permutation of a loaded registry covers every spine with the same script, tiles, payload and environment |
| Selection.NoTies | tile/tile.go:101-112 | Two matching tiles neither of which beats the other are the same tile |
| Selection.EveryChainIsGreedy | tile/cover.go:29-43 | With prefix-free patterns and any guards, every chain of matching tiles is a beginning of the greedy one and ends no further |
| Selection.GreedyUniqueExactly | tile/cover.go:29-43 | For unguarded tiles every chain is a beginning of the greedy one, on every spine, exactly when the patterns are prefix-free |
| Selection.GreedyIsNotAlwaysLongest | tile/tile.go:1-8 | A registry that loads and on which greedy covers three layers where four can be covered |
| Selection.ShippedPrefixFree | tiles/linux/linux.go:21-23 | The six shipped tiles load and no pattern begins another |
| Selection.ShippedTakes | tiles/linux/linux.go:21-23 | Which runs of layer names the shipped tiles take, under which tile name and lowered as which device; where none begins they take nothing |
| Selection.ShippedCoverIsUnique | tiles/linux/linux.go:21-23 | So the cover found with the shipped tiles is the longest and the only maximal one |
| Selection.LayersConserved | tile/cover.go:25-72 | The layers handed to the tiles, at most one layer giving an address, and the payload concatenate to exactly the spine |
| Explain.BidOf | tile/explain.go:96-109 | The scan returns the first reason a tile does not match |
| Explain.BidExact | tile/explain.go:96-109 | No reason exactly for the tiles that match, and a mismatch names the first differing layer |
| Explain.WhyOf | tile/explain.go:111-131 | The counting loops return the reason for the pick |
| Explain.ReasonIsTrue | tile/explain.go:111-131 | The reason is the only match for one tile, a tie with the number of tiles that have the winner's length for several, and else the longest match against the others |
| Explain.StepsTell | tile/explain.go:45-93 | A step for every tile taken with the reason and every tile's bid, and where none matches before the end one more with the bids alone |
| Explain.Explain | tile/explain.go:45-93 | The second walk records every bid at every greedy position, and what is left over |
| Explain.ChosenIsGreedy | tile/explain.go:45-82 | The tiles it names are the greedy ones, on every spine |
| Explain.ExplainAgreesWithCover | tile/explain.go:45-93 | When the cover succeeds the names are those applied, and the leftover is the payload or one address-bearing layer and the payload |
| Spine.Extract | spine/spine.go:39-54 | The walk returns the layers down to the innermost, or an error at the second child |
| Spine.FromForm | spine/spine.go:60-75 | The wrapper is checked in order, and a spine is never empty |
| Spine.SpineIsStraightPath | spine/spine.go:39-54 | A spine exists exactly when no node on the way down branches, and then it is that path's layers |
| Spine.BranchingExactly | spine/spine.go:39-54 | It fails exactly when the way down forks, at the second form of the first fork |
| Spine.FormExactly | spine/spine.go:60-75 | A file has a spine exactly when it is a plain wrapper around one straight path, and else is refused for its name, its properties, its forms or the fork, in this order |
| Safety.ShapeBlock | tiles/linux/linux.go:67-161 | Every lowering is a block: at most an address below, one device under a fresh name, and commands about that device |
| Safety.ChainRuns | tile/cover.go:29-43 | A lowered chain runs on the machine and builds one device per tile, each on the one before |
| Safety.UpRuns | tile/cover.go:65-70 | Bringing devices up in creation order never meets an underlay that is down |
| Safety.RuleRuns | tile/cover.go:25-72 | A rule's script runs; it creates one new device per tile and brings up exactly those, once each, in creation order |
| Safety.UnderlaysChain | env/env.go:86-95 | Each VXLAN or VLAN device stands on the device of the tile before it, or on the root if first, and a prefixed VXLAN source is put on that device in the command just before |
| Safety.OneMoreRule | cmd/pktc/main.go:127-140 | One more rule on the shared environment, accepted or refused, leaves machine and environment in agreement, and its devices stand on one another from the physical one up |
| Safety.RulesRun | cmd/pktc/main.go:249-263 | The scripts of any sequence of rules run on the machine without getting stuck |
| Safety.ShippedRulesExecute | cmd/pktc/main.go:249-263 | With the shipped tiles the printed commands themselves execute from a machine that has only the underlay device |
| Safety.LowerFile | cmd/pktc/main.go:230-263 | The rule loop emits each rule's script up to the first refusal, and what it emitted executes |
| Safety.FileExactly | cmd/pktc/main.go:230-263 | Each script is that of its rule from the physical device on the names the rules before left, up to the first rule that has no spine or no cover, whose error is the file's |
| Symmetry.PeerLayerIsOpposite | mirror/mirror.go:68-125 | Each far layer has every other property of the near one; if that names two ends, each has the other's address, or its star, and the length of its own place; and only the innermost addressed one has the given address, or none, for its own |
| Mirror.AssembleChain | mirror/mirror.go:237-247 | A tree is its chain of only children put back over what the last one carries |
| Involution.SwapTwiceExactly | mirror/mirror.go:147-190 | Exchanging the ends of any layer with distinct keys twice restores what it says exactly when each end has no address or is a text written as its address and the length it will get back |
| Involution.SwapKeepsAddressed | mirror/mirror.go:193-210 | Turning a well-written layer of any protocol around leaves it well written and does not change whether it carries an address and a length |
| Involution.MirrorTwiceExactly | mirror/mirror.go:43-134 | Mirroring a tree with another inner address and back with its own restores it, up to positions and string or symbol spelling, exactly when every two-ended layer survives two exchanges and turning the layers around does not move the innermost address |
| Involution.MirrorTwice | mirror/mirror.go:43-134 | So every tree whose ends are stars or addresses with an optional length, of one family on IP layers, comes back |
| Involution.OverwrittenIsLost | mirror/mirror.go:118-125 | Where the innermost addressed layer is a tunnel's end, no address given on the way back restores the packet unless the first one named the end it sends to |
| Peering.Clone | mirror/mirror.go:249-259 | A copy that stands for the same tree and shares no node and no array with it |
| Peering.SwapEndpoints | mirror/mirror.go:147-166 | The in-place edit of the property array exchanges the two ends |
| Peering.SetProp | mirror/mirror.go:212-224 | The first property with the key gets the text, or one is appended |
| Peering.RemoveProp | mirror/mirror.go:226-234 | Compaction inside the same array drops exactly the properties with the key |
| Peering.SpineNodes | mirror/mirror.go:237-247 | The loop collects the chain of only children, whose nodes and arrays are pairwise distinct parts of the tree |
| Peering.SwapEach | mirror/mirror.go:68-80 | Every two-ended node is turned around and counted, and nothing else in the tree changes |
| Peering.InnermostAddressed | mirror/mirror.go:193-210 | The backward scan finds the deepest addressed node; InnermostIsLast says which that is |
| Turned.InnermostIsLast | mirror/mirror.go:193-210 | The node found is the last one named ipv4 or ipv6 with a readable prefix under `:src`, and there is none exactly when none is found |
| Peering.TurnAround | mirror/mirror.go:58-125 | The edits in place leave a sound tree of the same objects that stands for the mirrored packet |
| Peering.PeerTree | mirror/mirror.go:43-134 | The result is a fresh tree standing for the mirror of the input, which is unchanged and shares nothing with it |
| Turned.PeerExactly | mirror/mirror.go:43-134 | A file has a mirror exactly when the given address is empty or a prefix and some layer names two ends; then every layer is turned around, and the deepest IP layer that then has a prefix has the given address, or none, for its own and nothing else changed |
| Symmetry.EndpointsCross | tiles/linux/linux.go:30-53 | The far end of a point-to-point tunnel reads the same two addresses the other way round exactly when their texts have the same tail |
| Symmetry.FieldsFace | tiles/linux/vxlan.go:99-129 | VXLAN devices of mirrored fields each send to the other's local address, as `remote`, exactly when neither end is a group and an address given to the outer layer is the one it sends to |
| Symmetry.VXLANMatched | tiles/linux/vxlan.go:27-133 | Near and far VXLAN devices get one name and share id, port and underlay, and they face each other, remote for local, exactly under that condition |
| Symmetry.ShapeMatched | tiles/linux/linux.go:67-161 | Every shape, lowered at both ends from equal environments, gives devices of the same name that differ in their addresses at most and face each other exactly when its outer layer can be turned around |
| Symmetry.NearFarSymmetry | mirror/mirror.go:43-134 | A spine and its mirror, covered from equal environments by any unguarded set of the six shapes, whenever both succeed apply the same tiles, leave equal environments and make devices alike under the same names, which all face each other exactly when every tile's outer layer can be turned around |
| Symmetry.SpineOfPeer | mirror/mirror.go:55-58 | The spine of the mirrored file is the mirror of the file's spine |
| Symmetry.MirrorConfiguresTheFarEnd | mirror/mirror.go:43-134 | The same for a whole file and the shipped tiles: the mirror configures the other ends of the same tunnels exactly when every tile can be turned around |
| FarEnd.OrdinaryIsReversible | mirror/mirror.go:68-125 | Without groups, slashes in zones and an inner address that is a tunnel's end, every tile of any chain that lowers can be turned around |
| FarEnd.FarEndLowers | mirror/mirror.go:43-134 | If only the outer layers of tiles name two ends, each pair a star or addresses of one family, and an inner address is given, a spine that can be covered has a mirror that can |
| FarEnd.FarEndFaces | mirror/mirror.go:43-134 | So an ordinary spine of that kind that can be covered has a mirror that is covered, by the same tiles, with devices that face it |
| Examples.GroupIsNoPeer | testdata/vxlan-multicast.lisp:1-8 | The mirror of the multicast stack is covered, with the group for its own address, and its device does not face the near one |
| Examples.OverwrittenEnd | mirror/mirror.go:118-125 | A VXLAN stack whose outer layer has the only length: the far end takes the given address for its own, and its device does not face the near one |
| Examples.OverwrittenStaysLost | mirror/mirror.go:118-125 | Mirrored back with its own address, that stack sends to the given address and not where it did |
| Examples.ZoneIsCut | mirror/mirror.go:169-177 | Two zoned addresses with slashes in their zones: splitting at the first slash exchanges half of each, and the devices do not face each other |
| Examples.GREStackFaces | mirror/mirror.go:68-125 | Every GRE stack with two bare outer addresses of one family that can be covered has a mirror, for every inner address given, that can be and faces it |
| Wire.Expect | wire/wire.go:56-136 | The facts grown step by step are the prediction, refusals included; what that is, is PredictExactly |
| Wire.PredictExactly | wire/wire.go:56-157 | A spine has a prediction exactly when its layers foretell one: each concrete end, port and VNI shows its one fact, with its value and the text to look for, and a star or a missing key shows none |
| Refusals.PredictRefuses | wire/wire.go:56-157 | And else is refused for the first thing in the way |
| Wire.TunnelFacts | wire/wire.go:138-157 | The tunnel header's facts are appended after those already there |
| Wire.VXLANReadings | wire/wire.go:56-136 | A VXLAN stack that lowers has a prediction exactly when neither outer end has a length, and then the prediction is a function of the emitted link |
| Wire.WireGuardReadings | wire/wire.go:56-136 | The predicted port is the endpoint's port and the predicted destination its address |
| Wire.ReadingsAgree | wire/wire.go:56-136 | Whenever a spine has a cover and a prediction, the prediction is what the parameters of the first device of the script show |
| Wire.FactsAgree | wire/wire.go:56-136 | So, kind by kind: a source, destination, port or VNI fact exists exactly when the parameter does (a destination being a peer or a group), is the only one, and has its value and pattern |

## Left out

- Positions carry no file name, and diagnostics keep their kind and position but not their wording.
- The reasons attached to emitted commands are not modelled; the annotated rendering is proved for any reasons.
- Arguments containing `$(` take the double-quote branch of `quote`; its output is modelled, what the shell then runs is not.
- The shell fragment has quoting, blanks, newlines and comments; operators, expansions and reserved words outside what is rendered are not part of it.
- Address parsing and printing, masking and multicast tests are the library's; only `PrefixLaw`, `LengthLaw` and `SlashLaw` are ever assumed, by name.
- Tiler, lowerings, spine and wire read trees and layers as values; nodes are objects where they are built and where the mirror edits them.
- Explanations keep every attempt, choice and reason but not `String`, the target name or the note; `Expectation.String`, `Check` and `describe` are formatting.
- The mirror's lists of supplied and missing facts are remarks for people and are not modelled.
- Flag parsing, file reading and printing of `cmd/pktc` are input and output; the rule loop is kept.
- Network-namespace tests drive a real kernel and are not part of this model.
- The machine's addresses are a set: that two rules never place the same prefix on one device is not promised by the code.
- The set of used names is a `set` where the program has a map to true.
- A lowering outside the six shapes is any function of layers and environment; it may return any environment.
- Env.Env.Restore: not an operation of the program, it stands for whatever such a lowering did to the environment.
- Symmetry.NearFarSymmetry: says nothing of a run in which one end is refused; FarEndLowers is a sufficient condition for the far end, not a necessary one. A WireGuard link holds no addresses, so two of them count as facing; its peer, port and endpoint are set by a later command and not compared, since `mirror/mirror.go:98-115` itself says that the far end of WireGuard cannot be read off the near tree.
- Involution.MirrorTwiceExactly: for an inner address that is not a tunnel's end (OverwrittenIsLost tells what happens otherwise) and keys that are distinct, as in every tree that is built. A packet mirrored with its own inner address may also come back when it is not restorable.
