# filter_tags run finder, modelled in Dafny

This project models the automaton engine of the sensorgnome `filter_tags`
program. The engine splits a time-ordered stream of Lotek tag detections
("hits") into runs, where a run is a sequence of bursts from one tag.

**Graph construction.** Every Lotek ID on a nominal frequency gets a
deterministic automaton, a `DFA_Graph`:
- The root stands for every tag registered under that ID.
- A node's edges map gap lengths to the node standing for the tags whose
  burst interval, times 1 to `max_skipped_bursts` bursts, fits the gap
  within a slop that widens with each skipped burst.
- Nodes are built breadth-first up to `hits_to_confirm_id` levels deep.
  Nodes of the last level link back into that level.
- Construction fails when a last-level node still holds more than one tag.

**Hit processing.** A `Run_Finder` keeps, per Lotek ID, a list of run
candidates, each a walker through that automaton. For every hit it scans
the list:
- it erases the candidates that are too old, dumping those that are
  confirmed;
- it clones each unconfirmed candidate that accepts the hit, then adds the
  hit to it;
- when that confirms a candidate, it erases the candidate's rivals, dumps
  it and stops;
- otherwise it starts a new candidate at the root.

At the end, `end_processing` dumps every confirmed candidate that remains,
after erasing its rivals.

**Modules, one per source file or concern:**

| module | models |
|---|---|
| `Common` | `Option`, `Outcome` (pass or thrown message), the least element and ascending iteration of integer sets |
| `Intervals`, `IntervalMaps` | `boost::icl` intervals and interval maps: sorted disjoint segments with union-on-add (`add`), overwrite (`set`) and point lookup (`find`) |
| `DfaNodes` | `DFA_Node` as a datatype in an arena of nodes |
| `DfaGraphs` | `DFA_Graph` as a class whose fields `grow` updates |
| `DfaSetup` | `Run_Finder::setup_graphs` for one graph, the gap map, and what the finished automaton recognises |
| `Hits` | `Hit` and its sequence numbering |
| `StringTables` | `Hashed_String_Vector` |
| `RunCandidates` | `Run_Candidate` as a value; its mutators return the new value |
| `RunScans` | the list walks of `process` and `end_processing` on one candidate list, as methods proved equal to recursive functions |
| `RunFinders` | `Run_Finder` as a class with per-Lotek-ID maps of graphs and candidate lists |

Static counters are explicit objects:
- `Hits.HitSource` holds the `seq_no` counter of `Hit`.
- `RunFinders.RunIds` holds the `run_id_counter` of `Run_Candidate`.
- `RunFinders.Defaults` holds the static slop defaults.

Output lines become `Record` values appended to a sequence.

## Model

| member | source | states |
|---|---|---|
| Common.Least | DFA_Node.cpp:54-57 | the first element of the `std::set<Tag_ID>` of a node is in the set and is at most every element |
| Common.AscendingSpec | DFA_Graph.cpp:32-33 | iteration in key order visits exactly the elements of the set, in strictly increasing order |
| Intervals.Closed | Run_Finder.cpp:76 | `interval::closed(lo, hi)` contains exactly the gaps `g` with `lo <= g <= hi` |
| IntervalMaps.AddLookup | Run_Finder.cpp:76 | after `m.add((i, s))` every gap of `i` looks up to its old payload plus `s`; every other gap is unchanged |
| IntervalMaps.AddSorted | Run_Finder.cpp:76 | `add` keeps the map a sorted sequence of non-empty, disjoint segments |
| IntervalMaps.AddWithin | Run_Finder.cpp:72-76 | adding non-empty subsets of a tag set keeps every payload a non-empty subset of it |
| IntervalMaps.Find | DFA_Node.cpp:24-28 | `find(g)` gives the payload of a segment containing `g`, and nothing exactly when no segment contains it |
| IntervalMaps.FindSorted | DFA_Node.cpp:24-28 | in a well-formed map, `find(g)` gives the payload of the one segment that contains `g` |
| IntervalMaps.FindLookup | DFA_Graph.cpp:67-75 | in a well-formed map with non-empty payloads, `find` finds a segment iff the union lookup is non-empty, and then returns that lookup |
| IntervalMaps.FindPut | DFA_Graph.cpp:74 | after `edges.set((i, n))` every gap of `i` leads to `n` and every other gap leads where it led before |
| IntervalMaps.PutSorted | DFA_Graph.cpp:74 | `set` keeps the map well formed |
| IntervalMaps.UpperEndBounds | DFA_Node.cpp:44-45 | no gap found in a well-formed map lies above the upper end of its highest segment |
| DfaNodes.NewNode | DFA_Node.cpp:3-15 | a new node has the given depth and IDs, no edges (`next` is null for every gap), and `max_age` -1 |
| DfaNodes.Next | DFA_Node.cpp:17-29 | `next(gap)` is null iff no edge interval holds the gap; otherwise it is the target of an edge that holds it |
| DfaNodes.SetMaxAge | DFA_Node.cpp:38-48 | `max_age` becomes the upper end of the highest edge interval, or -1 without edges; depth, IDs and edges are unchanged |
| DfaNodes.NextWithinMaxAge | DFA_Node.cpp:38-45 | every gap for which `next` is non-null is at most `max_age` |
| DfaNodes.IsUniqueIffSingleton | DFA_Node.cpp:31-36 | `is_unique()` holds iff the ID set is a singleton |
| DfaNodes.GetId | DFA_Node.cpp:54-57 | `get_id()` is the least ID of the set |
| DfaNodes.GetIdOfUnique | DFA_Node.cpp:54-57 | on a unique node, `get_id()` is its sole ID |
| DfaGraphs.Graph.constructor | DFA_Graph.cpp:3-13 | no root, no tags, no nodes, and `max_depth` empty levels |
| DfaGraphs.Graph.AddTag | DFA_Graph.cpp:15-25 | throws iff there are tags and the first one's Lotek ID differs from the new tag's; otherwise the tag set gains exactly that tag; root, levels and nodes are unchanged |
| DfaGraphs.Graph.SetupRoot | DFA_Graph.cpp:27-36 | does nothing when a root exists; otherwise creates a depth-0 root holding every tag and registers it in `N[0]` under that set, touching no other level |
| DfaGraphs.Graph.GetRoot | DFA_Graph.cpp:38-41 | a root, when set, is a depth-0 node registered in `N[0]` under its own ID set |
| DfaGraphs.Graph.Grow | DFA_Graph.cpp:48-81 | fails iff `depth` is more than one past the last level, changing nothing. Otherwise: only level `depth` changes, gaining the segments' ID sets; new nodes are one deeper than `p` and were not registered before; every gap of a segment leads from `p` to the node registered for its set; other gaps are unchanged; `max_age` is recomputed |
| DfaGraphs.GrowValues | DFA_Graph.cpp:54-80 | the work of `grow` on the field values establishes the same post-state and keeps the graph invariant |
| DfaGraphs.LinkSegments | DFA_Graph.cpp:67-75 | the segment loop: each ID set is looked up or registered at `depth`, and the edge over the segment is set to its node |
| DfaSetup.AddWindows | Run_Finder.cpp:72-78 | for one tag, adding the closed windows `[k·bi − slop_k, k·bi + slop_k]` for k = 1..`max_skipped_bursts` adds the tag at exactly the gaps that match some k |
| DfaSetup.BuildGapMap | Run_Finder.cpp:62-78 | the gap map of a node is well formed and maps every gap to exactly the node's tags compatible with it |
| DfaSetup.GrowLinks | Run_Finder.cpp:85 | growing an edgeless node by its gap map leaves it with no edge where no tag is compatible, and elsewhere an edge to the node registered for exactly the compatible tags |
| DfaSetup.GrowNode | Run_Finder.cpp:60-86 | growing one node of a level keeps the level-loop invariant with that node done |
| DfaSetup.GrowLevel | Run_Finder.cpp:56-87 | after one depth, every node registered at it is linked to the successor depth (at the last depth: provided all its nodes are unique); no deeper node has edges |
| DfaSetup.CheckUnique | Run_Finder.cpp:88-101 | reports ready iff every ID set of the last depth has at most one tag; otherwise it names one that has more |
| DfaSetup.SetupGraph | Run_Finder.cpp:51-102 | the root holds every tag; every depth above the last is linked; the result is ready iff every last-depth node is unique; when ready, the whole graph is linked |
| DfaSetup.WalkConsistent | Run_Finder.cpp:53-86 | in a linked graph, walking a gap sequence from a node succeeds iff some of its tags is consistent with every gap, and ends at the node for exactly those tags at the depth reached |
| DfaSetup.ReadySeparates | Run_Finder.cpp:88-101 | once the check passes, at most one tag is consistent with any `max_depth - 1` or more gaps |
| Hits.HitSource.constructor | Hit.cpp:14 | the counter starts at 0, before any hit |
| Hits.HitSource.Make | Hit.cpp:4-21 | the hit has exactly the given fields and `seq_no` one more than the previous hit's, above every earlier hit's |
| StringTables.HashedStringVector.constructor | Hashed_String_Vector.hpp:28-33 | empty table with `count` 0 |
| StringTables.HashedStringVector.IndexOf | Hashed_String_Vector.hpp:36-41 | the index of `s`, or -1 exactly when `s` was never added |
| StringTables.HashedStringVector.StringAt | Hashed_String_Vector.hpp:43-48 | the string at an index in range looks up back to that index |
| StringTables.HashedStringVector.Has | Hashed_String_Vector.hpp:50-52 | `has(s)` iff `s` was added |
| StringTables.HashedStringVector.Add | Hashed_String_Vector.hpp:54-61 | a present string keeps its index and nothing changes; a new one gets index `count`, is appended, and `count` grows by one; afterwards `has(s)` holds and the two lookups round-trip; `count == |strings|` and `indexes` inverts `strings` throughout |
| StringTables.Interning | Hashed_String_Vector.hpp:54-61 | on a fresh table two different strings get indices 0 and 1, and adding the first again returns 0 |
| RunCandidates.NewCandidate | Run_Candidate.cpp:5-19 | the buffer holds exactly the starting hit under its `seq_no`; `last_ts` is its timestamp; unconfirmed; `last_dumped_ts` is BOGUS_TIMESTAMP; the given run ID |
| RunCandidates.HasSameIdAs | Run_Candidate.cpp:21-24 | true iff both candidates are confirmed to the same tag ID, which is not BOGUS_TAG_ID |
| RunCandidates.SharesAnyHits | Run_Candidate.cpp:26-35 | true iff one of the first `hits_to_confirm_id` hits of `tf`, in `seq_no` order, is in this buffer |
| RunCandidates.SharesWithSelf | Run_Candidate.cpp:26-35 | a candidate with hits shares its first hit with itself |
| RunCandidates.AdvanceByHit | Run_Candidate.cpp:41-47 | the state's `next` for the gap since `last_ts`: null iff no edge holds that gap |
| RunCandidates.DeadStateTooOld | Run_Candidate.cpp:37-39 | on a node without edges (`max_age` -1), any hit not earlier than `last_ts` is too old |
| RunCandidates.AcceptingNotTooOld | Run_Candidate.cpp:37-47 | a candidate that can advance by a hit is not too old for it |
| RunCandidates.AddHit | Run_Candidate.cpp:49-72 | the hit is buffered, `last_ts` and the state are updated; the result is true iff the candidate was unconfirmed and now holds at least `hits_to_confirm_id` hits, and then it is confirmed to the tag of the new state with that tag's `bi` |
| RunCandidates.ConfirmationPermanent | Run_Candidate.cpp:66-71 | `add_hit` on a confirmed candidate returns false and keeps its tag |
| RunCandidates.ConfirmedToStateTag | Run_Candidate.cpp:66-68 | a confirmation names the least ID of the new state's set |
| RunCandidates.AddHitKeyed | Run_Candidate.cpp:59 | the buffer stays keyed by each hit's own `seq_no` |
| RunCandidates.CloneSharesHits | Run_Finder.cpp:208-213 | a clone taken before `add_hit` holds the first hit of the extended buffer, when the new hit is the latest |
| RunCandidates.ClearHits | Run_Candidate.cpp:85-90 | the buffer is emptied and nothing else changes |
| RunCandidates.ClearedSharesNothing | Run_Candidate.cpp:85-90 | a candidate with an empty buffer shares no hits with anyone |
| RunCandidates.Round | Run_Candidate.cpp:99 | C `round`: within one half of its argument, with the same sign |
| RunCandidates.BurstSlop | Run_Candidate.cpp:96-102 | `gap − round(gap/bi)·bi` lies within half a burst interval of zero |
| RunCandidates.WholeIntervalsNoSlop | Run_Candidate.cpp:99 | a whole number of burst intervals has slop 0 |
| RunCandidates.InOrder | Run_Candidate.cpp:95 | the buffer's hits in ascending `seq_no` order |
| RunCandidates.EmittedSpec | Run_Candidate.cpp:95-116 | record j carries hit j, position `in_a_row + j + 1`, and its slop against the previously dumped hit |
| RunCandidates.DumpHits | Run_Candidate.cpp:92-118 | the dump loop computes exactly `Dump`: the records, `in_a_row` advanced, `last_dumped_ts` moved, and the buffer cleared |
| RunCandidates.DumpRecords | Run_Candidate.cpp:92-118 | one record per buffered hit, in buffer order, at consecutive positions after the previous ones, under the run's and the confirmed tag's IDs |
| RunCandidates.DumpInOrder | Run_Candidate.cpp:95-116 | every buffered hit is written exactly once, in strictly increasing `seq_no` |
| RunCandidates.DumpSlops | Run_Candidate.cpp:96-102 | the first-ever dumped burst has slop BOGUS_BURST_SLOP; each later one, its burst slop from the hit dumped before it |
| RunCandidates.DumpEmpties | Run_Candidate.cpp:117 | the buffer is empty after a dump, so dumping again writes nothing; `in_a_row` advanced by the buffer size |
| RunScans.IsRival | Run_Finder.cpp:219-221 | `has_same_id_as || shares_any_hits`, evaluated left to right |
| RunScans.PurgeRivals | Run_Finder.cpp:218-229 | the in-place erase loop computes exactly `Purge` and tracks where the confirmed candidate ends up |
| RunScans.PurgeSpec | Run_Finder.cpp:218-229 | the purge erases exactly the rivals: survivors other than the confirmed one are no rivals; every survivor comes from the list; every non-rival survives |
| RunScans.ScanCandidates | Run_Finder.cpp:183-241 | the candidate loop of `process`, erasing in place, computes exactly `Scan` |
| RunScans.Accepted | Run_Finder.cpp:208-213 | a candidate that accepts the hit is confirmed by it iff it was unconfirmed and now holds enough hits |
| RunScans.ScanWithout | Run_Finder.cpp:183-211 | a scan in which no candidate is confirmed runs to the end of the list |
| RunScans.ScanWith | Run_Finder.cpp:183-239 | a scan runs as without confirmation up to the first confirmed candidate, and ends there |
| RunScans.ConfirmedAtSpec | Run_Finder.cpp:213-238 | at confirmation: the candidate, dumped, stays in place; no rival remains; every non-rival remains |
| RunScans.ScanConfirmsIff | Run_Finder.cpp:213-238 | the scan reports a confirmation iff some candidate is confirmed by the hit |
| RunScans.ScanNoConfirmation | Run_Finder.cpp:183-211 | without confirmation: the too-old are erased and dumped iff confirmed; the others stay in order, having taken the hit when they accept it; unconfirmed acceptors are cloned as they were before |
| RunScans.ScanConfirmation | Run_Finder.cpp:183-239 | with `cs[k]` the first confirmed: clones and records come from the candidates before it and then its own; the list holds it, dumped, and no rival of it, and keeps every non-rival |
| RunScans.CloneIsRival | Run_Finder.cpp:208-229 | the clone of a candidate that the hit confirms is a rival of it, but escapes the purge because clones join the list only after the scan |
| RunScans.ScanPastConfirmed | Run_Finder.cpp:213-247 | when every candidate that accepts the hit is already confirmed, the scan confirms nothing, so a new candidate is started |
| RunScans.EndCandidates | Run_Finder.cpp:258-285 | the `end_processing` loop over one list computes exactly `EndFrom` |
| RunScans.EndNoneConfirmed | Run_Finder.cpp:259-285 | a list without confirmed candidates is left unchanged and nothing is dumped |
| RunScans.EndDumpsAll | Run_Finder.cpp:259-284 | afterwards, every confirmed candidate left has an empty buffer |
| RunScans.EndRecordsConfirmed | Run_Finder.cpp:261-284 | every record written carries the run ID of a confirmed candidate |
| RunScans.EndDistinctFrom | Run_Finder.cpp:262-279 | the walk from `i` keeps candidates confirmed to the same tag apart: each confirmed candidate reached erases every other of its ID, and dumping keeps its tag |
| RunScans.EndDistinctIds | Run_Finder.cpp:262-279 | after `end_processing` no two candidates left in a list are confirmed to the same tag |
| RunScans.ScanBounded | Run_Finder.cpp:183-244 | the scan keeps and clones only candidates on nodes of the graph, and assigns no run ID |
| RunScans.EndBounded | Run_Finder.cpp:259-285 | `end_processing` keeps only candidates on nodes of the graph, and assigns no run ID |
| RunFinders.MsToSeconds | Run_Finder.cpp:108 | milliseconds divided by 1000: the seconds times 1000 give back the milliseconds |
| RunFinders.Defaults.constructor | Run_Finder.cpp:289-291 | defaults of 0.010 s slop, 0.001 s expansion and 60 skipped bursts |
| RunFinders.Defaults.SetBurstSlopMs | Run_Finder.cpp:106-109 | the default slop becomes the argument in seconds; the other defaults are unchanged |
| RunFinders.Defaults.SetBurstSlopExpansionMs | Run_Finder.cpp:111-114 | the default expansion becomes the argument in seconds; the other defaults are unchanged |
| RunFinders.Defaults.SetMaxSkippedBursts | Run_Finder.cpp:116-119 | sets the default number of skipped bursts; the other defaults are unchanged |
| RunFinders.RunIds.constructor | Run_Candidate.cpp:15 | the counter starts at 0 |
| RunFinders.RunIds.Next | Run_Candidate.cpp:15-17 | each run ID is one more than the previous one |
| RunFinders.ReadyGraphSeparates | Run_Finder.cpp:88-101 | a graph that passes the check tells its tags apart after `max_depth` bursts |
| RunFinders.NewGraphFor | Run_Finder.cpp:27-28 | a new graph of depth `hits_to_confirm_id`, with no tags and no root |
| RunFinders.AddTagTo | Run_Finder.cpp:29 | the graph's tag set gains the tag, leaving root, levels and nodes unchanged |
| RunFinders.SetupFor | Run_Finder.cpp:51-101 | one graph set up: root over all its tags; ready iff it passes the check; otherwise a last-depth set with several tags |
| RunFinders.SetupAt | Run_Finder.cpp:51-102 | one pass of the graph loop keeps the loop invariant: earlier graphs ready, later ones untouched, every tag table unchanged |
| RunFinders.SetupEach | Run_Finder.cpp:51-102 | every tag table is unchanged; ready means every graph is ready; otherwise the failing graph was set up, all lower Lotek IDs are ready, and all higher ones are untouched (the throw ends the loop) |
| RunFinders.ProcessOn | Run_Finder.cpp:174-249 | the list becomes the scan's survivors, then its clones, then a new root candidate with the next run ID unless the hit confirmed one; the scan's records are output |
| RunFinders.EndListsAt | Run_Finder.cpp:256-258 | each list is ended on its own; lists not walked are untouched |
| RunFinders.EndAll | Run_Finder.cpp:256-286 | the loop over Lotek IDs ends each list in ascending ID order and concatenates the records |
| RunFinders.EndAllFacts | Run_Finder.cpp:252-287 | after `end_processing` each list is its own list ended, still fits its graph, has no confirmed candidate holding hits, and has no two candidates confirmed to the same tag |
| RunFinders.EndOutputsConfirmed | Run_Finder.cpp:252-287 | `end_processing` never dumps an unconfirmed candidate: each record's run ID is that of a candidate confirmed when it began |
| RunFinders.Finder.constructor | Run_Finder.cpp:8-18 | no graphs, no candidates, no graph owned yet, slop settings from the defaults |
| RunFinders.Finder.AddTag | Run_Finder.cpp:20-32 | throws iff the tag's frequency is not the finder's, leaving every graph's tags, root, levels and nodes as they were; otherwise its Lotek ID has a graph and a candidate list: an existing graph keeps its identity, root, levels and nodes and gains the tag (unless its ID is already there); a new graph is fresh and holds just this tag; every other graph keeps its identity, tags, root, levels and nodes; every graph newly owned is fresh |
| RunFinders.Finder.AddGraph | Run_Finder.cpp:27-31 | a fresh graph with no tags and no root, owned by the new Lotek ID, and an empty candidate list for it; other entries unchanged |
| RunFinders.Finder.AddToGraph | Run_Finder.cpp:29 | the graph of the tag's Lotek ID gains the tag, keeping its root, levels and nodes; every other graph keeps its tags, root, levels and nodes |
| RunFinders.Finder.SetupGraphs | Run_Finder.cpp:34-103 | every tag table registered by `add_tag` is unchanged; ready means every graph is ready; otherwise there is a failing graph whose last depth holds a set of several tags, every lower Lotek ID's graph is ready and every higher one is untouched |
| RunFinders.Finder.Process | Run_Finder.cpp:147-250 | only the hit's list changes: survivors, then clones, then a new root candidate unless the hit confirmed one; the run ID counter moves accordingly; the scan's records are appended to the output |
| RunFinders.Finder.EndProcessing | Run_Finder.cpp:252-287 | every list is ended and its records output in ascending Lotek ID order; no confirmed candidate left holds hits, and no list keeps two candidates confirmed to the same tag |

## Left out

- Output formatting is not modelled: the CSV text of `dump_hits`, `output_header`, `init`'s dump of the graphs to `cerr`, and `DFA_Node::dump`. Writing a line becomes appending a `Record`, and `prefix` and `set_out_stream` are not modelled.
- `Gap` (`float`) and `Timestamp` (`double`) are `real`, with no rounding error. Integer IDs, counters and `unsigned` widths are unbounded, so there is no wrap-around.
- RunCandidates.BurstSlop: with a zero burst interval the C++ divides by zero and writes NaN. The model returns the gap instead, and its bound is stated only for non-zero intervals.
- `std::unordered_map` iteration over Lotek IDs (in `setup_graphs` and `end_processing`) has no specified order. The model walks the IDs in ascending order. So `SetupGraphs` says which graphs are set up before a failure only for that order.
- RunFinders.Finder.SetupGraphs: the exception text listing the offending tag IDs is not modelled. The model returns `Indistinguishable(ids)` with the offending set instead.
  - When several sets would fail, the model may report a different one than the C++ iteration finds first.
  - At the last depth, the C++ iterates `N[depth]` while `grow` may insert into it. The model iterates a snapshot of the level. The two differ only when a last-depth node holds several tags, which is exactly the failing case.
- RunFinders.Finder.SetupGraphs requires that no graph has been set up yet. The source calls it once, from `init`, before any hit.
- RunFinders.Finder.Process requires the hit's Lotek ID to have a set-up graph. The C++ `operator[]` would silently create an empty graph and list, and then dereference a null root.
- `hits_to_confirm_id` is fixed when a finder is constructed and must be at least 1. With 0 the C++ indexes `N[-1]`. `set_hits_to_confirm_id` is not modelled separately.
- DfaGraphs.Graph.Grow requires a root when `p` is null. The C++ would dereference a null pointer.
- DfaGraphs.Graph.Grow models the intended "add one level" when `depth` equals the number of levels. The C++ writes `N[N.size()]` out of range.
- StringTables.HashedStringVector.StringAt requires an index in range. Out of range, the C++ builds a `std::string` from a null pointer.
- Tag_Database and Known_Tag are not part of this model. Registered tags are `KnownTag(id, lid, freq, bi)` records held in each graph's tag table, which also serves as the registry that `add_hit` confirms against.
- `Run_Candidate::owner`, `tags_not_in_db`, Run_Foray and the command-line programs are not part of this model.
- boost's merging of adjacent segments with equal payloads is not modelled. It changes how a map is cut into segments, but not what any gap looks up to.
- Candidates are values in a list rather than objects reached by iterators. Pointer identity of `DFA_Node` is an index into the graph's node arena.
