# Symbolic BGP route-map evaluation, modelled in Dafny

This project models the prototype symbolic evaluator for BGP route maps in
the `hgao10/BGP` repository, together with its standalone AS-path matching
script.

- **Symbolic fields** (`announcement.dfy`, `encoding.dfy`):
  - A field holds 32 address positions as 64 bits in a fixed-size array, two bits per position:
    - `00` impossible
    - `01` zero
    - `10` one
    - `11` wildcard
  - `create_from_prefix` builds a field from an address and a prefix length.
  - `__str__` reads a field back as dotted-quad text.
  - `RouteAnnouncement.filter` ANDs a pattern into the IP-prefix or next-hop field, in place.
  - Per position, this AND is the meet of the four-valued lattice.
- **Route maps** (`router.dfy`):
  - Items are registered under sequence numbers, and an item holds matches and actions.
  - `RouteMap.apply` sorts the sequence numbers in descending order, in place.
  - It then applies every item to the same announcement object.
  - An item threads that object through its matches. Actions are never applied.
  - The net effect is given by the function `Narrow`: every IP-prefix and next-hop pattern of every item is ANDed into the announcement.
- **Topology and propagation** (`network.dfy`):
  - The graph is an adjacency map whose neighbour lists keep insertion order and never repeat a neighbour.
  - Routers are internal (with route maps) or external peers, and are known both by id and by name.
  - `propagate_announcement` is proved against `Run`, a value-level traversal.
  - `Run` pops the most recent edge, applies the IN map for the sender, then the OUT map toward each other neighbour.
  - Deliveries to peers are stored by peer name; edges to internal routers are pushed back onto the stack.
  - Every stack entry refers to the one announcement object, so every map met narrows that same object.
- **AS-path matching** (`aspath.dfy`):
  - `check_subset` is modelled as written, next to the range-containment test it evidently intends.
  - `route_decision` is modelled as the branch it ends in, together with the final value of its `match_rule_count`.
  - The decision is defined over either range test. The method `RouteDecision` is the program as written, with `check_subset` as written.
  - Every lemma about the decision holds for both tests. A lemma relates the two: on natural ranges, the program as written keeps every route the intended test keeps.
  - The script's own `route_decision` call keeps its route as written, and drops it on the frequency with the intended test.

Three facts about the code shape the model:

- One announcement object is shared by all stack entries and narrowed by every route map it meets; it is never copied.
- Fields have no prefix-length ranges: a field is only its bit array.
- Route maps have no early exit: every item of every map met is applied.

Foreign code is modelled as plain values:

| Python | model |
|---|---|
| bitstring `BitArray` | `array<bool>` |
| `&=` on a `BitArray` | element-wise AND, `AndInPlace` |
| netaddr `IPNetwork` | a `Prefix(addr, len)`: an address below 2^32 and a length up to 32 |
| networkx `Graph` | a map from node to its neighbour list |

Where the Python raises an exception in propagation, the model returns a
`Failure` value instead:

| situation | Python | `Failure` |
|---|---|---|
| the origin is not a node | networkx raises | `UnknownNode` |
| the origin has no neighbour | `IndexError` | `NoIngress` |
| a popped id is not an internal router | `KeyError` | `NotInternal` |

## Model

| member | source | states |
|---|---|---|
| Encoding.Encode | model/announcement.py:127-132 | the two stored bits of every position decode back to that position (impossible 00, zero 01, one 10, wildcard 11) |
| Encoding.AndIsMeet | model/announcement.py:127-132 | ANDing the bits of two encoded positions yields their lattice meet: wildcard is the identity, zero meeting one is impossible |
| Encoding.PositionsOfAnd | model/announcement.py:97-101 | position by position, the bitwise AND of two fields is the meet of their positions |
| Encoding.PositionsOfOnes | model/announcement.py:122-125 | a bit string with every bit set reads as all wildcard positions |
| Encoding.PositionsOfEncodeAll | model/announcement.py:127-132 | reading back positions written two bits each gives the same positions |
| Encoding.EncodeAllOfPositions | model/announcement.py:127-132 | an even-length bit string is determined by its positions, so the encoding is a bijection |
| Encoding.BitsToNatOfNatToBits | model/announcement.py:188-190 | the n-bit binary form of an address, padded with leading zeros, denotes the address modulo 2^n |
| Encoding.ParseDecOfDec | model/announcement.py:157 | the decimal text `%d` writes for an octet parses back to the octet |
| Announcement.SymbolicField.constructor | model/announcement.py:117-125 | a fresh field of n positions has 2n bits, all set, so every position is wildcard |
| Announcement.SymbolicField.Len | model/announcement.py:134-135 | `__len__` is twice the number of positions |
| Announcement.SymbolicField.ToString | model/announcement.py:137-181 | an address field renders as the text `Render` gives its positions: committed bits until the first wildcard, zero-filled, as four octets, then `/` and the index of that wildcard; other fields render their raw bits |
| Announcement.SymbolicField.CreateFromPrefix | model/announcement.py:184-211 | the result's positions are `PrefixPositions(p)`: the first len address bits, most significant first, then wildcards; its type is IP prefix exactly when the type argument is 0, otherwise next hop |
| Announcement.PrefixBits | model/announcement.py:187-201 | the bit string the loop builds has 64 bits and reads as `PrefixPositions(p)`: 10 or 01 for each of the first len address bits, most significant first, then 11 |
| Announcement.AndInPlace | model/announcement.py:97 | BitArray's `&=`: the array becomes the bitwise AND of its old contents and the pattern |
| Announcement.RouteAnnouncement.constructor | model/announcement.py:26-43 | a given prefix or next hop becomes that prefix field, a missing one an all-wildcard field (two distinct arrays); the other attributes are stored |
| Announcement.RouteAnnouncement.SetField | model/announcement.py:45-84 | setting any field leaves both fields unchanged, because every setter is a no-op |
| Announcement.RouteAnnouncement.Filter | model/announcement.py:93-113 | an IP-prefix filter ANDs the pattern into the IP-prefix field and leaves the next hop alone; a next-hop filter does the mirror image; any other field changes nothing |
| Announcement.FirstWildcard | model/announcement.py:142-155 | the index where the decoding loop stops is the first wildcard position, or 32 when there is none |
| Announcement.Render | model/announcement.py:137-158 | what `__str__` prints for an address field: four decimal octets joined by dots, a slash and the committed length; the text contains a slash, is at least 9 characters long and holds only digits, dots and slashes |
| Announcement.PrefixPositionsCommitLen | model/announcement.py:188-209 | a field made from addr/len has its first wildcard at len and no impossible position, so it can be rendered |
| Announcement.CommittedBitsOfPrefix | model/announcement.py:142-157 | the bits the rendering reads off a field made from addr/len denote the network address (host bits cleared) |
| Announcement.Octets | model/announcement.py:157 | the four 8-bit slices of a 32-bit string are the octets of its number, most significant first |
| Announcement.RenderPrefix | model/announcement.py:137-158 | round trip: rendering the field made from addr/len gives the network address in dotted-quad form followed by `/len` |
| Announcement.RenderIgnoresTail | model/announcement.py:142-155 | positions after the first wildcard do not affect the rendered text or length |
| Router.Narrow | model/announcement.py:93-113 | the bits of a field after `filter` with each pattern on that field, in order; the length never changes |
| Router.NarrowAt | model/announcement.py:93-113 | reference reading of a chain of filters: a bit survives exactly when it was set and is set in every pattern on that field |
| Router.NarrowAppend | model/router.py:87-96 | applying one list of filters after another is applying their concatenation |
| Router.NarrowIdempotent | model/announcement.py:97-101 | filtering again with the same patterns changes nothing |
| Router.NarrowPermutation | model/announcement.py:97-101 | the order of the patterns does not matter: any permutation gives the same field |
| Router.NarrowByWildcards | model/announcement.py:97-101 | all-wildcard patterns leave the field unchanged |
| Router.NarrowBelow | model/announcement.py:97-101 | filtering only clears bits |
| Router.NarrowConflict | model/announcement.py:127-132 | one pattern fixing a position to 0 and another fixing it to 1 make that position impossible (00) |
| Router.SortDescending | model/router.py:66 | the result is in descending order and is a permutation of the input |
| Router.DescendingUnique | model/router.py:66 | two descending permutations of the same list are equal, so the sorted order is determined |
| Router.SortDescendingOfDescending | model/router.py:66 | sorting a list that is already descending changes nothing |
| Router.RouteMapMatch.Apply | model/router.py:105-108 | a match filters its field with its pattern and returns the same object; permit and deny matches behave identically |
| Router.RouteMapAction.Apply | model/router.py:116-118 | an action returns its input unchanged |
| Router.RouteMapItems.constructor | model/router.py:75-77 | a new item has no matches and no actions |
| Router.RouteMapItems.AddMatch | model/router.py:79-81 | appends one match and leaves the actions alone |
| Router.RouteMapItems.AddAction | model/router.py:83-85 | appends one action and leaves the matches alone |
| Router.RouteMapItems.Apply | model/router.py:87-96 | returns the input object, narrowed by the patterns of all matches in insertion order; actions are never applied |
| Router.RouteMapItems.ApplyMatch | model/router.py:91-92 | one turn of the match loop: the result so far is extended by one more match's filter |
| Router.RouteMap.constructor | model/router.py:50-54 | a new route map has an empty sequence and no items |
| Router.RouteMap.AddItem | model/router.py:56-58 | appends the sequence number and binds it to the item; a repeated number is listed twice and refers to the later item |
| Router.RouteMap.Apply | model/router.py:60-71 | the sequence is left sorted in descending order with the map's effect unchanged; the result lists the input object once per sequence entry (empty for an empty map), and the object is narrowed by every pattern of every item in descending sequence order |
| Router.RouteMap.SortSequence | model/router.py:66 | sorting the sequence in place keeps every number registered and does not change the map's effect |
| Router.RouteMap.ApplyInOrder | model/router.py:67-69 | visiting the items listed in an order returns the object once per entry and narrows it by their filters in that order |
| Router.RouteMap.ApplyItem | model/router.py:68-69 | one turn of the item loop extends the filters applied so far by that item's filters |
| Router.RouteMap.FiltersForAppend | model/router.py:67-69 | the filters of the items in a list extended by one number are those of the list followed by that item's filters |
| Router.InternalRouter.constructor | model/router.py:35-37 | a new internal router keeps its id, name and AS number and has no route maps |
| Router.InternalRouter.AddRouteMap | model/router.py:39-41 | stores the map under (direction, neighbour), replacing any earlier one with that key |
| Network.AddNode | model/network.py:26-27 | adding a node keeps every existing node's neighbours and keeps the graph undirected |
| Network.Link | model/network.py:59 | records one neighbour at the end of a list unless already present: the list grows by at most one, gains only that neighbour and stays duplicate-free; no other list changes |
| Network.AddEdge | model/network.py:59 | each end gains the other, at the end of its list and only if missing: every list keeps its old entries as a prefix, grows by at most one, gains no neighbour but the other end, and stays duplicate-free; no other list changes |
| Network.AddEdgeUndirected | model/network.py:58-59 | adding an edge keeps the graph undirected and its lists duplicate-free |
| Network.AddEdgeSymmetric | model/network.py:59 | adding the edge u-v or v-u gives the same graph |
| Network.AddEdgeIdempotent | model/network.py:59 | adding an edge twice is adding it once |
| Network.Deliver | model/network.py:105-118 | sending to one neighbour: nothing back to the sender; through the OUT map if there is one; a peer's entry is overwritten by name, an internal router's edge is pushed; the fields stay 64 bits wide |
| Network.ExportAll | model/network.py:104-118 | one pass over the neighbours, in graph order, delivering to each |
| Network.Repeat | model/network.py:101-118 | one pass over the neighbours for each announcement the IN map returned |
| Network.Receive | model/network.py:94-118 | handling a popped edge: the IN map for the sender if there is one (then one pass per entry it returns), otherwise one pass |
| Network.Start | model/network.py:72-88 | an origin that is not a node fails as unknown, one without neighbours fails for want of an ingress; otherwise the stack holds exactly the edge from the origin to its first neighbour, with the announcement's fields and no results |
| Network.Run | model/network.py:90-118 | a completed traversal ends with an empty stack |
| Network.Propagate | model/network.py:63-120 | `propagate_announcement` on values: it fails as unknown exactly when the origin is not a node, for want of an ingress exactly when the origin has no neighbour, and otherwise ends with an empty stack unless a popped router is not internal or the fuel runs out |
| Network.ExportAllPushes | model/network.py:101-118 | one pass over a router's neighbours pushes exactly the edges to non-peer neighbours other than the sender, in neighbour order |
| Network.ExportAllReaches | model/network.py:104-116 | one pass delivers to exactly the peers among the neighbours other than the sender: nothing is exported back to where it came from |
| Network.RunDescends | model/network.py:90-118 | a traversal only adds results keyed by peer names and only clears bits of the announcement |
| Network.PropagateResults | model/network.py:63-120 | every result key of a completed propagation is the name of an external router, and both fields were only narrowed |
| Network.RunPopsLast | model/network.py:88-91 | the stack is last in, first out: the edge pushed last is handled first |
| Network.ApplyRouteMap | model/network.py:96-97 | applying a route map in the traversal narrows the shared object by that map's recorded effect and returns it once per entry; every map keeps its effect |
| Network.Import | model/network.py:94-99 | with an IN map for the sender, the object is narrowed by it and handed on once per entry; without one, it is handed on alone |
| Network.NetworkTopology.constructor | model/network.py:13-24 | a new topology has no nodes, routers, peers or names |
| Network.NetworkTopology.AddInternalRouter | model/network.py:26-36 | adds the node (keeping its edges), registers a fresh internal router under the id and records both name maps; peers are unchanged |
| Network.NetworkTopology.AddExternalRouter | model/network.py:38-44 | adds the node, registers the peer under the id and records both name maps; internal routers are unchanged |
| Network.NetworkTopology.AddPeering | model/network.py:46-61 | resolves names to ids and adds the undirected edge exactly when both ends are nodes; otherwise the graph is unchanged; the routers and names never change |
| Network.NetworkTopology.PropagateAnnouncement | model/network.py:63-120 | the result is `Propagate` on the network as it was, starting from the given announcement's fields or from all wildcards; result values are the shared object (or the list an OUT map returned); every route map keeps its effect |
| Network.NetworkTopology.Launch | model/network.py:72-88 | resolves the origin by name or id, takes its first neighbour as the ingress and yields the outcome of `Propagate` |
| Network.NetworkTopology.Traverse | model/network.py:90-118 | the while loop yields the outcome of `Run` from the starting state |
| Network.NetworkTopology.Step | model/network.py:90-92 | one turn either fails as `Run` does or pops the last edge, uses up one unit of fuel and leaves the same `Run` outcome |
| Network.NetworkTopology.ReceiveAt | model/network.py:94-118 | handling a popped edge is `Receive`: the import step, then one export pass per local announcement |
| Network.NetworkTopology.ExportEach | model/network.py:101-118 | one export pass per local announcement, as `Repeat` |
| Network.NetworkTopology.ExportFrom | model/network.py:104-118 | one pass over the neighbours in graph order, as `ExportAll` |
| Network.NetworkTopology.ExportTo | model/network.py:105-118 | a neighbour other than the sender gets the object through its OUT map, or the object itself if there is none; a peer's entry is overwritten by name, an internal router's edge is pushed |
| AsPath.NewAsPath | aspath.py:2-4 | a new AS-path record has the given length range and no ASN parts |
| AsPath.BitAndBounded | aspath.py:76 | on natural numbers Python's `&` gives a natural number no larger than either operand |
| AsPath.CheckSubsetAsWritten | aspath.py:75-81 | `check_subset` as written returns only 1 or 0 |
| AsPath.CheckSubset | aspath.py:75-81 | the intended range test returns 1 exactly when the first range lies within the second, otherwise 0 |
| AsPath.ScriptCallReturnsOne | aspath.py:72-83 | the script's own call `check_subset([1,1],[0,2])` returns 1 |
| AsPath.WithinPassesAsWritten | aspath.py:75-81 | on natural, non-empty ranges, the test as written accepts every range that lies within the other |
| AsPath.AsWrittenAcceptsNonSubset | aspath.py:75-81 | the test as written accepts [1,2] against [1,1], which does not lie within it |
| AsPath.Check | aspath.py:75-81 | the range test `route_decision` calls, as written or as intended; it returns 1 or 0 |
| AsPath.Inner | aspath.py:94-110 | the inner loop over the test parts: the counter only goes down, a set flag stays set, and a stop is a position or frequency drop of the rule ASN |
| AsPath.Outer | aspath.py:90-113 | the outer loop over the rule parts after the length test: it never reports a length mismatch and the counter only goes down |
| AsPath.Decide | aspath.py:85-113 | what `route_decision` does with a given range test: the counter never exceeds the number of rule parts |
| AsPath.RouteDecision | aspath.py:85-113 | the nested loops, calling `check_subset` as written, end in the branch and with the `match_rule_count` that `Decide(AsWritten, …)` specifies |
| AsPath.InnerGoing | aspath.py:94-110 | for either range test, the inner loop finishes exactly when every test part with the rule ASN passes position and frequency; it then has decremented the counter once per such part and set the flag if there was one |
| AsPath.OuterKept | aspath.py:90-113 | for either range test, the outer loop keeps the path exactly when every positive rule part is satisfied; the counter then went down by the number of matches |
| AsPath.KeptIff | aspath.py:85-113 | for either range test (as written at aspath.py:88 and :103, or as intended), a test path is kept exactly when its length range passes that test and every positive rule ASN occurs in it with every occurrence at an allowed position and passing the frequency test |
| AsPath.KeptCount | aspath.py:103-107 | for either range test, on a kept path `match_rule_count` is the number of rule parts minus one per successful ASN and frequency match |
| AsPath.LengthMismatchIff | aspath.py:88 | for either range test, the decision is a length mismatch exactly when the length range fails that test, and then no ASN part is checked (the counter is unchanged) |
| AsPath.PositionMismatchDrops | aspath.py:96-101 | for either range test, a positive rule part i with a nonzero position, whose first equal test ASN is at another position, drops the route whatever the frequencies, once the positive parts before i are satisfied; the counter is then lowered by the matches of those parts |
| AsPath.FrequencyMismatchDrops | aspath.py:103-110 | for either range test, a positive rule part i whose first equal test ASN is at an allowed position but fails that test on the frequency drops the route, once the positive parts before i are satisfied; the counter is then lowered by the matches of those parts |
| AsPath.MissingAsnDrops | aspath.py:111-113 | for either range test, a positive rule part i that no test ASN equals drops the route, once the positive parts before i are satisfied; the counter is then lowered by the matches of those parts |
| AsPath.NonPositivePartsSkipped | aspath.py:91 | for either range test, removing the non-positive rule parts leaves the decision unchanged and lowers the counter by their number |
| AsPath.ScriptDecision | aspath.py:132-138 | the script's own call (rule 14 at position 1 with frequency [1,1], test frequency [1,2]) keeps the route with the counter at 0 as written, and drops it on the frequency with the counter at 1 with the intended test |
| AsPath.LengthDecision | aspath.py:85-88 | a path of length [0,100] against a rule of length [0,5] with no ASN parts is kept as written and fails the length test as intended |
| AsPath.AsWrittenKeepsMore | aspath.py:75-113 | on natural, non-empty ranges, every route kept with the intended range test is also kept by the program as written |

## Left out

- Logging, the debug `print`s and `utils/logger.py` are left out. The logger's calls themselves change no state, but the messages `filter` passes to them are built before each call, and building them can raise (next line).
- `RouteAnnouncement.__str__`/`__repr__`, `ASPathPart.__repr__` and `BGPRouter.get_config` are left out: they only produce text for printing, or do nothing.
- netaddr's string parsing is left out: a prefix is given as an address below 2^32 and a length up to 32.
- networkx's node and edge attributes are left out: they are never read.
- The module-level demo statements of `aspath.py` are left out. Its two calls of `check_subset` and `route_decision` are modelled as lemmas.
- The commented-out deny handling of `route_decision` is not code, so it is not modelled.
- Announcement.SymbolicField.ToString: requires an address field to have no impossible position before its first wildcard. What the source does with such positions is not modelled:
  - Each impossible (00) position prints an error and adds no bit, so k of them leave a bit string of 32 - k characters.
  - For 1 <= k <= 7 the later bits shift left and the last octet is short, so the text is a well-formed but wrong dotted quad.
  - For k >= 8 the last octet's slice is empty and `int('0b', 2)` raises `ValueError`.
- Announcement.SymbolicField.ToString: also requires an address field to hold at least 64 bits. On a shorter field the source renders from the positions present up to the first wildcard, and raises `IndexError` only when no wildcard occurs within the field; a fresh 16-position field, for instance, renders as `0.0.0.0/0`. No caller creates such a field.
- Announcement.SymbolicField.constructor: requires a positive length, the only length the source uses (32).
- Announcement.RouteAnnouncement.SetField: the unknown-field branch, which only logs, cannot arise, because the field kinds form a closed datatype. The individual no-op setters are folded into this one method.
- Announcement.RouteAnnouncement.Filter: does not model the `ValueError` raised while its debug messages are formatted (model/announcement.py:96-102). Each message is built with `%` before the logger is called, so `__str__` runs on the field and the pattern before the AND, and on the field after it. When the field after the AND has 8 or more impossible positions before its first wildcard, `int('0b', 2)` raises `ValueError`, as for `Announcement.SymbolicField.ToString` above. For example, filtering a fresh announcement's IP prefix with 192.168.1.0/24 and then with 192.168.254.0/24 makes the eight positions of the third octet impossible, so the second `filter` raises. The model's `Filter` returns normally with those positions impossible, and so does every caller up to `Network.NetworkTopology.PropagateAnnouncement`: `Router.RouteMapMatch.Apply`, `Router.RouteMapItems.Apply`, `Router.RouteMap.Apply` and the propagation loop would all raise with it in the source.
- Announcement.RouteAnnouncement.Filter: requires an IP-prefix or next-hop pattern of 64 bits. BitArray's `&=` raises on a width mismatch, and that error is not modelled.
- Router.RouteMap.Apply: requires every listed sequence number to have an item (the source raises `KeyError` otherwise). It also requires every pattern to be 64 bits wide.
- Router.RouteMapItems.Apply: requires every IP-prefix and next-hop pattern of its matches to be 64 bits wide. BitArray's `&=` raises on a width mismatch, and that error is not modelled.
- Router.RouteMap.Apply: requires that the announcement's field arrays are not themselves pattern arrays of the map. When they are, the in-place AND would also change the pattern, and that aliasing is not modelled.
- Router.RouteMapItems.Apply: likewise requires that the announcement's field arrays are not pattern arrays of its matches, for the same reason.
- Network.NetworkTopology.PropagateAnnouncement: takes a fuel bound on the number of pops. The source has no visited set and does not terminate on a cycle of internal routers; the model reports `OutOfFuel` instead.
- Network.NetworkTopology.PropagateAnnouncement: requires export maps to face only peers or ids that are not nodes. An export map toward an internal router would push its list result onto the stack as if it were an announcement; that type confusion is excluded rather than given an invented meaning.
- Network.NetworkTopology.PropagateAnnouncement: requires every route map to be applicable and the announcement's arrays to be distinct from all pattern arrays, as for `Router.RouteMap.Apply`.
- Ranges passed to `check_subset` are two-element pairs. Lists of another length, on which Python raises `IndexError`, are not modelled.

## Findings

| source | as written | input that shows it | evidently intended | confidence | as-written member | corrected member |
|---|---|---|---|---|---|---|
| aspath.py:76 | `&` binds tighter than the comparisons, so the condition is the chained comparison `list1[0] >= (list2[0] & list1[1]) <= list2[1]` | `check_subset([1,2], [1,1])` returns 1, because `1 & 2` is 0, although [1,2] does not lie within [1,1]; the script's own `route_decision` call (aspath.py:132-138) therefore keeps, with the counter at 0, a route whose frequency [1,2] lies outside the rule's [1,1]; likewise a path length [0,100] passes the length test against a rule length [0,5] | `list1[0] >= list2[0] and list1[1] <= list2[1]`: the first range lies within the second | high; not executed | AsPath.ScriptDecision | AsPath.CheckSubset |
