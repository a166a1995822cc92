# MGPCL: verified models of its algorithmic cores

MGPCL is a C++ utility library. This project models the parts of it that compute something by themselves - the Fourier
transform, the pattern compiler and matcher, JSON in both directions, length-prefixed packets over a stream, the hash
containers and their hash, the double-buffered queue, the scheduler's worker, the line reader, and the arithmetic of
the square root, the checksum and Base64 - and proves what they do on every input, every run, or every way in which
sockets, streams and threads may behave. `dafny verify dfyconfig.toml` checks all of it.

Code that changes state is modelled by methods, arrays and classes with the fields of the original; each is proved
against a specification given as a function or a predicate on values, and what the library promises is proved about
that. Sockets, streams and threads are nondeterministic: a read may return any number of bytes that are there, a send
may take any number of those it is given, and other threads act whenever a lock is free.

## What is proved

**Fourier transform** (`ExactComplex`, `FourierSum`, `Fft`, `FourierInverse`). Over exact complex numbers, with sine
and cosine any functions that obey the angle-sum laws and the values at quarter turns, both the scalar transform and
the four-lane one leave the discrete Fourier sum in the output cells, and change no other cell, for every power of two
from 4 on. The sum has an inverse: turning every bin back by its own frequency, in plain cosines and sines, gives the
samples times their number; a cosine of q periods leaves half the number of samples in bin q and in its mirror bin and
nothing elsewhere, a sine likewise. For 1 and 2 the recursion never meets its base case.

**Patterns** (`Chars`, `PatternSyntax`, `PatternPrinter`, `PatternLanguage`, `PatternAtoms`, `PatternGraph`,
`PatternTraps`, `PatternFragment`, `PatternLayout`, `Pattern`, `PatternExamples`, `PatternClasses`, `PatternGreedy`).
Exactly the legible syntax trees - no empty bracket, no empty group, no range that ends before it starts - are read
from some text, and a printer gives one. What each character means is stated one by one: control characters,
quantifiers, anchors, and the classes `%s`, `%d`, `%l`, `%p`, `%u`, `%w` and `%x`, up to what their compiled patterns
match. Compiling a pattern, groups included, gives a graph whose head-to-leaf paths spell exactly a language defined
on the syntax tree, with its nodes and the order of their children a function of that tree. The language is not always
the expected one, because one pending skip source is kept: `a?b?c` loses the edge that leaves out both. Two neighbours
clash if both can be left out and neither can be empty instead. Without a clash at any depth of groups nothing is
lost; with a clash in the list itself, or inside a group that has to occur, something always is; so where the groups
that can be left out have none inside, the language is the expected one if and only if there is none. A clash inside
such a group may be made up for by what is around the group, as in `(a?b?)?`.

**Matching** (`Matcher`, `MatcherWords`, `MatcherHalting`, `MatcherOrder`, `MatcherRight`). The matcher's loop with
its explicit stack is a machine of turns, which comes to an end exactly where recursive backtracking does, and with
its result: the end of the first accepting path in child order, and -1 only if no path accepts. A group that is
repeated although it can be empty is a trap: its tail leads back to its head before it leads anywhere else, so that a
loop that comes to such a tail never ends. For every compiled pattern, text and position the loop ends if and only if
it comes to no such tail, and never ends if and only if, in child order, some way to such a tail comes before all ways
to a match. Hence it ends on every text if the pattern repeats no group that can be empty; and where no optional group
hides such a group and every atom can be passed, it ends on every text only then: a pattern with an exposed trap
matches no text, and loops on some, or on all if nothing has to be consumed before the trap, as in `(a?)+`. Without
these conditions it may still end: `.*(x(a?)+)?` has used up the whole length before it comes to the group.

Two kinds of node do not always advance: a dot's node counts the length down and never moves the iterator, and a
single-range node stays on a character below its minimum, which shows when it is inverted. So `.b` does not match "ab"
and reports a match of one character on "bx"; a word is matched if its other atoms spell the text and its dots find
enough length left. A match is empty if and only if no atom of the word found has advanced, and an empty match is what
every later call of `next` returns again. Where no atom lags and the compiled language is the expected one, the
matcher finds a string that the pattern describes whenever there is one. An optional character is taken if it is
there, and a repeated one as often as it can be, with `-` no less than with `*`. In sum: if all atoms can be passed
and what can be left out is sound - no trap, no clash, no atom that lags - the matcher ends and is right on every text
if and only if the whole pattern is sound. With `$`, a match that reaches the end is missed if and only if the first
match stops short of it.

**JSON** (`BasicParser`, `FlatMap`, `JsonSyntax`, `JsonRoundTrip`, `JsonGrammar`, `JsonParser`, `JsonPrinter`,
`JsonEndToEnd`). The parser over a refilled buffer with one character of undo is a recursive-descent function of the
whole stream, whatever the chunks; the assertion in `undo` never fires. It reads a value if and only if the text is,
after blanks, one of a grammar given apart from the parser: any blanks between tokens, quotes of both kinds, unquoted
names, a comma before a closing bracket. Both printers followed by the parser give back every tree of null, booleans,
32-bit integers, byte strings, arrays and objects with non-empty names of distinct hashes. The limits are exact:
integers come back if and only if they fit 32 bits, a value with nothing after it if and only if it is not a number,
and an object keeps all its members if and only if their names have different hashes (`"Aa"` and `"BB"` do not).

**Packets** (`Queue`, `Framing`, `Packet`, `Transport`, `TcpServer`, `TcpClient`, `Network`, `Link`). The receive loop
decodes the stream as a byte-at-a-time decoder does, however it is cut into reads. At most three bytes ever wait, and
none while a payload is incomplete, so that a size is only ever given to an empty prepacket. Over every interleaving of
queueing, sending, receiving and reading, a connection is in the state that a model on plain values gives; no byte is
made or lost on the way; the payloads received are the first of the non-empty ones sent, and the packets delivered are
those of them, in order, that found room in the queue. From every state that can be reached, all that was accepted and
not lost can still be delivered. `fill` copies each piece to the start of
the buffer instead of after the earlier ones: a payload is kept for all contents if and only if it arrives in one
piece. With the intended offset the delivered packets are the sent ones, byte for byte; the model takes the rule as a
parameter, and `AtStart` is the code.

**Hash containers** (`Words`, `Hasher`, `HashTable`, `HashMap`). The integer hash is a permutation of the 32-bit
words. The hash map is a finite map keyed by hash, its number of elements is right, doubling the buckets changes no
lookup, and iteration meets each pair once. Over every history on a set of keys it is the map that compares keys if
and only if no two of them have the same hash. Therefore a map with integer keys is, but for the one key whose hash is
the least integer. `clear` leaves the element count alone, and the map is sound after it if and only if it was empty
before.

**The rest.** `BnSqrt`: the result is the square root for every number from an odd power of two up to the next even
one, and otherwise only for 0, 4, 5, 6, 7, 16 and 17; for odd lengths it is twice the root of half the number.
`Crc32`: the table holds what its polynomial says, and a byte by the table is eight shifts of the register. `Base64`:
each character of an encoding is the letter, in the alphabet of RFC 4648, of its six bits; decoding undoes encoding,
no input makes the decoder write more than it estimated, and an accepted string is an encoding if and only if it is
canonical. `LineReader`: the lines depend on the stream alone, with CR and LF apart or together. `Scheduler`: by the
clock that is handed in, a task is started neither before it is due nor, if regular, before its interval after its
last finish, one-shot tasks once; every task is in the list or deleted, never both.

## Where code and intent differ

The models follow the code. Differences found are lemmas: `PatternExamples.AdjacentSkipsExample`,
`PatternLanguage.CompiledIsExpectedIff`, `PatternExamples.DotExample`, `PatternExamples.LagExample`,
`PatternAtoms.AtomAdvancesIff`, `PatternExamples.SameHitExample`, `Matcher.SameHitIff`,
`PatternExamples.NeverEndingExample`, `MatcherHalting.LoopEndsIff`, `MatcherOrder.NeverEndsIff`,
`MatcherHalting.AlwaysEndsIff`, `MatcherRight.AlwaysRightIff`, `PatternExamples.EndAnchorExample`,
`Matcher.EndMissedIff`, `HashMap.AgreesIffInjective`, `Packet.FaithfulIff`, `BnSqrt.CorrectIff`,
`JsonRoundTrip.AloneRoundTripIff`, `JsonRoundTrip.NoMemberLostIff`, `HashMap.HashMap.Clear`, `Fft.RecursionEndsIff`.
An empty bracket `[]` runs into a debug assertion, which the model reports as an error of its own, and so does an
empty member name in JSON. The client forgives errors after a turn without one, the server does not
(`TcpClient.TcpClient.Iterate`, `TcpServer.TcpServerClient.ReadyRead`), and in the client a write that would block
hides a failed read of the same turn (`TcpClient.Fails`). `expect` compares unsigned bytes with signed characters, so
that one from 128 on matches no byte, and 255 matches the end of the input.

## Model

| member | source | states |
|---|---|---|
| `FourierSum.SplitSum` | src/FFT.cpp:139-143 | the even samples' sum plus one twiddle factor times the odd samples' sum is the whole sum, after every number of terms |
| `FourierSum.PeriodicSum` | src/FFT.cpp:148-164 | an n-point sum repeats after n bins, which lets one half-size result serve both halves |
| `FourierSum.Butterfly` | src/FFT.cpp:145-164 | both halves of the transform of 2n samples from the two n-point transforms, by plus and minus |
| `Fft.DftOfFour` | src/FFT.cpp:36-83 | the four bins of the transform of four real samples, for the unrolled base case |
| `Fft.PairSums` | src/FFT.cpp:38-54 | the leaves pair samples 0 and 2, and 1 and 3, and touch only their four cells |
| `Fft.ApplyFft4` | src/FFT.cpp:36-83 | the base case leaves the transform of four samples a stride apart, and changes nothing else |
| `Fft.StridedHalves` | src/FFT.cpp:140-143 | the recursive calls, by doubled stride and shifted start, see exactly the even and the odd samples |
| `Fft.HalfwayStart` | src/FFT.cpp:142-146 | the second recursive call leaves the first one's result in place |
| `Fft.HalfwayStep` | src/FFT.cpp:148-164 | turning pairs keeps finished bins finished and waiting cells waiting, whatever the loop's stride |
| `Fft.HalfwayEnd` | src/FFT.cpp:148-164 | once every pair is turned, the cells hold the whole transform |
| `Fft.TurnPair` | src/FFT.cpp:149-161 | one pass turns one pair of cells by its root of unity, and keeps every other cell |
| `Fft.TurnBasic` | src/FFT.cpp:145-164 | the loop with its angle increased step by step completes the transform in place |
| `Fft.ApplyFftBasic` | src/FFT.cpp:135-166 | for every power of two from 4 on, any stride and offset, the output window holds the discrete Fourier sum; the rest is unchanged |
| `Fft.Apply` | src/FFT.cpp:174-177 | the outputs hold the discrete Fourier transform of the first cnt samples; cells past cnt are unchanged |
| `Fft.RecursionEndsIff` | src/FFT.cpp:135-143 | for powers of two the recursion reaches its base case if and only if the count is at least 4 |
| `Fft.NextAngles` | src/FFT.cpp:130 | one addition moves all four lanes on by four steps |
| `Fft.LanesComputed` | src/FFT.cpp:104-128 | the register arithmetic is four complex butterflies, lane by lane |
| `Fft.TurnLanes` | src/FFT.cpp:100-131 | one pass of the four-lane loop turns four neighbouring pairs, with aligned loads and stores |
| `Fft.TurnPs` | src/FFT.cpp:95-131 | the four-lane loop completes the transform in place |
| `Fft.ApplyFftPs` | src/FFT.cpp:85-133 | the four-lane recursion leaves the discrete Fourier sum, as the scalar one does |
| `Fft.ApplySse` | src/FFT.cpp:169-172 | the four-lane transform meets the specification of `Apply` |
| `Fft.SpectrumDetermined` | src/FFT.cpp:169-177 | that specification leaves one result, so the two transforms agree on every input |
| `FourierInverse.Primitive` | src/FFT.cpp:145 | no power of the principal root below the n-th is one, for n a power of two |
| `FourierInverse.SpectrumInverts` | src/FFT.cpp:84-177 | outputs that hold the transform give n times each sample back, summed over all bins turned forward by cos and sin of 2 pi j m / n |
| `FourierInverse.CosineTone` | src/FFT.cpp:84-177 | of x[j] = cos(2 pi q j / n), bins q and n - q hold n / 2 and all others nothing, for 0 < q < n / 2 |
| `FourierInverse.SineTone` | src/FFT.cpp:84-177 | of x[j] = sin(2 pi q j / n), bin q holds -i n / 2, bin n - q the opposite, and all others nothing |
| `PatternLanguage.CompiledWithinExpected` | src/Pattern.cpp:531-573 | keeping one pending skip source never admits a word that was not expected |
| `PatternLanguage.ExpectedWithinCompiled` | src/Pattern.cpp:531-573 | where no two neighbours clash, at any depth of groups, nothing expected is lost: of two that are left out, one is taken empty |
| `PatternLanguage.ShortestIsLeast` | src/Pattern.cpp:531-573 | no other word, expected or compiled, is as short as the one that leaves out all it can and takes the rest once |
| `PatternLanguage.ShortestCompiled` | src/Pattern.cpp:549-556 | that word is compiled only if no two neighbours clash, in the list or inside groups that have to occur |
| `PatternLanguage.CompiledIsExpectedIff` | src/Pattern.cpp:531-573 | no clash at any depth means the expected language, a clash in the list itself or inside a group that has to occur never does; with no clash inside groups that can be left out, if and only if there is none |
| `PatternExamples.AdjacentSkipsExample` | src/Pattern.cpp:549-556 | `a?b?c` parses, expects "c", and its graph does not spell it |
| `PatternExamples.MaskedClashExample` | src/Pattern.cpp:549-556 | `(a?b?)?` has the expected language although the list in its group has not |
| `PatternLanguage.EmptyWordIff` | src/Pattern.cpp:549-559 | which item lists can be left empty, decided on the syntax |
| `PatternGraph.ChainWords` | src/Pattern.cpp:531-534 | linking two fragments spells exactly the concatenations, from every pending source |
| `PatternGraph.LoopWords` | src/Pattern.cpp:558-559 | a start-over edge spells exactly one or more rounds |
| `PatternGraph.ChainRanked` | src/Pattern.cpp:531-534 | linking fragments keeps a rank that falls along non-consuming edges, but for the nodes exempted in either |
| `PatternGraph.LoopRanked` | src/Pattern.cpp:558-559 | looping a fragment that always consumes keeps such a rank |
| `PatternTraps.NullableLoopIsTrap` | src/Pattern.cpp:558-559 | looping a fragment that can be empty makes a trap: its tail leads back to its head, from which it is reached without consuming, before it leads out |
| `PatternTraps.ChainProgress` | src/Pattern.cpp:531-534 | linking fragments keeps every trap a trap, and adds none |
| `PatternTraps.LoopProgress` | src/Pattern.cpp:558-559 | a start-over edge adds a trap if and only if the body can be empty |
| `PatternTraps.SnareInLoop` | src/Pattern.cpp:558-559 | a trap that bars the way through a body still bars it when the body is repeated |
| `PatternTraps.SnareLinked` | src/Pattern.cpp:531-573 | a trap that bars the way to the tail and past the pending skip source bars the way to all that is linked on later |
| `PatternTraps.SnareFollows` | src/Pattern.cpp:531-573 | a trap in the next item bars the way past that item, also around it if it is entered without consuming |
| `PatternFragment.BuildItem` | src/Pattern.cpp:531-573 | one turn of the loop: the graph so far spells the items so far, stays well shaped, and its exposed traps bar the way |
| `PatternFragment.FinishPending` | src/Pattern.cpp:579-584 | the extra end node lets a path leave out the last item, and adds nothing else |
| `PatternFragment.FinishLooping` | src/Pattern.cpp:663-665 | an end node after a tail with children keeps the words and gives paths a place to stop |
| `PatternPrinter.ShowIsRead` | src/Pattern.cpp:356-587 | the text printed for a legible tree parses as that tree and begins and ends with no anchor |
| `PatternPrinter.LegibleIff` | src/Pattern.cpp:356-587 | a tree is read from some text if and only if it is not empty and has no empty bracket or group and no range that ends before it starts |
| `PatternClasses.EscapeIsRead` | src/Pattern.cpp:286-327 | an escaped s, d, l, p, u, w or x, in either case, is read as an atom that accepts exactly the characters of its class; any other escaped character as itself |
| `PatternClasses.EscapeMatches` | src/Pattern.cpp:424-441 | the compiled pattern of one escaped character matches one character that its atom accepts, and nothing else |
| `PatternClasses.CharacterIsRead` | src/Pattern.cpp:280-284 | outside brackets: which characters are refused, the dot, and all others read as themselves |
| `PatternClasses.BracketCharacter` | src/Pattern.cpp:389-413 | inside brackets: which characters are refused unless they are escaped |
| `PatternClasses.RangeIsRead` | src/Pattern.cpp:384-420 | one character or a range in brackets, and the error of one that ends before it starts |
| `PatternClasses.RangeIsCutOff` | src/Pattern.cpp:377-408 | the errors when the text ends inside a range or a bracket |
| `PatternClasses.ParenthesisIsRead` | src/Pattern.cpp:499-516 | the errors of an empty and of an unclosed parenthesis |
| `PatternClasses.QuantifierIsRead` | src/Pattern.cpp:536-547 | `?` sets skip, `+` sets loop, `*` and `-` set both |
| `PatternClasses.AnchorsAreTakenOff` | src/Pattern.cpp:646-655 | a `^` at the start and a `$` at the end are anchors, and nothing else is |
| `PatternClasses.DateExample` | test/String.cpp:302 | `%d%d/%d%d/%d%d%d%d` parses and matches exactly two digits, a slash, two digits, a slash and four digits |
| `PatternGreedy.TakesAll` | src/Pattern.cpp:494-583 | one character or class of characters: with `?` it is taken if it is there, with `+`, `*` or `-` the longest run of it is, and without skipping there is no match if it is not there |
| `Pattern.MakeNodeFromBoundList` | src/Pattern.cpp:329-354 | whatever node kind is chosen, it stands for the bound list it was given |
| `Pattern.ParseBracket` | src/Pattern.cpp:377-422 | the bracket loop reads what the grammar reads, and knows whether there is a proper range |
| `Pattern.FindParenthesisEnd` | src/Pattern.cpp:455-477 | the loop with level and escape flag finds the closing parenthesis |
| `Pattern.Pattern.ParseNode` | src/Pattern.cpp:356-453 | one new node that stands for the atom read, the same errors, no change to other nodes |
| `Pattern.Pattern.LinkItem` | src/Pattern.cpp:531-573 | exactly which edges one item adds, in which order, and where the three pointers then are |
| `Pattern.TurnKeeps` | src/Pattern.cpp:496-574 | one turn of the loop keeps the invariant: older nodes untouched, the items so far spelled, the graph as laid out |
| `Pattern.Pattern.ParseGroup` | src/Pattern.cpp:499-520 | the list inside the parentheses that belong together, with the errors of empty and unclosed ones |
| `Pattern.Pattern.ParseOneBody` | src/Pattern.cpp:499-529 | a group's or an atom's own fragment, apart from all earlier nodes, laid out as the tree says |
| `Pattern.Pattern.CloseOff` | src/Pattern.cpp:576-586 | the finished list has one head and one tail, also when the last item can be skipped |
| `Pattern.Pattern.ParsePat` | src/Pattern.cpp:490-587 | the same errors as the grammar; otherwise a fragment whose head-to-tail paths spell exactly the compiled language of the items, laid out as the tree says |
| `Pattern.Pattern.Compile` | src/Pattern.cpp:628-668 | anchors taken off, and every path from the root to the one leaf spells a compiled word and the other way round |
| `PatternAtoms.AtomAdvancesIff` | src/Pattern.cpp:122-252 | an atom always moves past the character it accepts unless it is a dot, or an inverted single range with some character below its minimum |
| `PatternAtoms.RunDots` | src/Pattern.cpp:245-252 | where only dots lag, a word runs if its other atoms spell the text and the length left is enough for all of it; it ends where those atoms do |
| `PatternAtoms.RunStaysIff` | src/Pattern.cpp:693-701 | a word ends where it began if and only if every atom accepts that one character without advancing |
| `PatternAtoms.RunSpells` | src/Pattern.cpp:693-701 | without such atoms, running a word is matching it character by character |
| `Matcher.Visit` | src/Pattern.cpp:122-266 | a node that succeeds takes at least one from the length left, except an end node, which takes nothing |
| `Matcher.VisitIsAtomStep` | src/Pattern.cpp:122-266 | all five consuming node kinds behave as the atom they stand for, lag included |
| `Matcher.BackToSibling` | src/Pattern.cpp:702-716 | rolling back tries the next child of the last node with one left, and drops a node with its last child |
| `Matcher.SearchRuns` | src/Pattern.cpp:692-717 | where recursive backtracking finishes, so many turns of the loop come to the same result, or back to the stack below |
| `Matcher.EndSearched` | src/Pattern.cpp:692-717 | where the turns come to an end, so does recursive backtracking |
| `Matcher.EndsIffSearched` | src/Pattern.cpp:685-720 | the loop ends if and only if recursive backtracking does, and returns what that finds |
| `Matcher.Matches` | src/Pattern.cpp:685-720 | where the turns come to an end, the loop returns the length of what they find, or -1 |
| `MatcherWords.SearchFindsFirst` | src/Pattern.cpp:685-720 | a result is the end of the first accepting path in child order; failure means no path accepts |
| `MatcherWords.FollowIsPath` | src/Pattern.cpp:692-717 | a choice of children that is accepted runs the word of a head-to-leaf path |
| `MatcherWords.PathIsFollowed` | src/Pattern.cpp:692-717 | every head-to-leaf path is a choice of children with the same end |
| `MatcherWords.MatchOnCompiled` | src/Pattern.cpp:628-720 | on a compiled pattern, wherever the loop ends, its result is where a compiled word runs to, and -1 only if none runs |
| `MatcherWords.MatchWithDots` | src/Pattern.cpp:628-720 | where only dots lag, the match found is what the other atoms of a compiled word spell with room for its dots, and none is missed |
| `MatcherWords.EmptyMatchIff` | src/Pattern.cpp:685-720 | a match found is empty if and only if no atom of the word found has advanced |
| `MatcherWords.MatchesIsExpected` | src/Pattern.cpp:628-720 | where the compiled language is the expected one and no atom lags, the match found is a string the pattern describes, and none is missed |
| `PatternExamples.LagExample` | src/Pattern.cpp:168-182 | `[^b-d]x` describes "ax"; no compiled word of it runs there, and the matcher returns -1 |
| `PatternExamples.DotExample` | src/Pattern.cpp:245-252 | `.b` describes "ab", where the matcher returns -1, and not "b", which it finds on "bx" |
| `PatternExamples.SameHitExample` | src/Pattern.cpp:722-757 | every call of `next` with the pattern `.` finds the empty string at the start of the text |
| `MatcherHalting.RunsOn` | src/Pattern.cpp:692-717 | the length left and the rank bound the search, unless the loop comes to a node that is not ranked |
| `MatcherHalting.FailureExplores` | src/Pattern.cpp:702-716 | a search that has failed has been wherever a word runs that leads there |
| `MatcherHalting.AcceptanceExplores` | src/Pattern.cpp:692-717 | a search that has found a match has been at every trap that bars the path it took |
| `MatcherHalting.TrapNeverEnds` | src/Pattern.cpp:558-559 | from the tail of a trap the search never finishes, at any position of any text |
| `MatcherHalting.LoopEndsIff` | src/Pattern.cpp:685-720 | for every compiled pattern, text and position: the loop ends if and only if it comes to no tail of a group that is repeated although it can be empty |
| `MatcherHalting.NoNullableLoopsEnd` | src/Pattern.cpp:685-720 | a pattern that repeats no group that can be empty: the loop ends on every text, from every position |
| `MatcherHalting.RankIff` | src/Pattern.cpp:490-587 | a rank that falls along all non-consuming edges exists if and only if the pattern repeats no group that can be empty |
| `MatcherHalting.TrappedNeverMatches` | src/Pattern.cpp:685-720 | a pattern with an exposed trap matches no text, whether or not the loop ends |
| `MatcherHalting.TrappedLoops` | src/Pattern.cpp:685-720 | and there is a text on which its loop never ends |
| `MatcherHalting.StrictlyTrappedLoops` | src/Pattern.cpp:685-720 | with nothing to consume before the trap, the loop ends on no text, from no position |
| `MatcherHalting.NothingHiddenTrapped` | src/Pattern.cpp:549-559 | outside optional groups, and behind atoms that can be passed, every repeated group that can be empty is exposed |
| `MatcherHalting.AlwaysEndsIff` | src/Pattern.cpp:685-720 | for those patterns the loop ends on every text if and only if they repeat no group that can be empty |
| `MatcherOrder.LeadSearched` | src/Pattern.cpp:692-717 | a search that ends has been wherever a way leads that no way to a match comes before |
| `MatcherOrder.NeverEndsIff` | src/Pattern.cpp:685-720 | for every compiled pattern, text and position: the loop never ends if and only if, in child order, a way to the tail of a trap comes before all ways to a match |
| `MatcherRight.ShortestMatched` | src/Pattern.cpp:628-720 | a text spelled by the shortest expected word and rightly matched: the word is compiled and none of its atoms lags there |
| `MatcherRight.AlwaysRightIff` | src/Pattern.cpp:490-720 | where all atoms can be passed and what can be left out is sound: the loop ends and finds a described string if there is one, on every text, if and only if the pattern repeats no group that can be empty, has no clash and no atom that lags |
| `PatternExamples.RightWithDotExample` | src/Pattern.cpp:549-559 | `a.?` has an atom that lags, which can be left out, and is matched rightly on every text |
| `PatternExamples.NeverEndingExample` | src/Pattern.cpp:558-559 | `(a?)+` parses, and no number of turns ends its loop, on any text |
| `PatternExamples.HiddenTrapExample` | src/Pattern.cpp:549-559 | `.*(x(a?)+)?` parses, repeats a group that can be empty, and its loop ends on every text |
| `Matcher.FirstHit` | src/Pattern.cpp:737-743 | the position found matches, and no earlier one from the start of the search does |
| `Matcher.SameHitIff` | src/Pattern.cpp:722-757 | any later call of `next` returns the same hit if and only if the hit is empty |
| `Matcher.NextIff` | src/Pattern.cpp:722-757 | which calls find what, and what a call that finds nothing leaves, in terms of the positions at which the pattern matches |
| `Matcher.EndMissedIff` | src/Pattern.cpp:737-749 | with an end anchor, a match that reaches the end is missed if and only if the first match stops short of it |
| `PatternExamples.EndAnchorExample` | src/Pattern.cpp:737-749 | `a$` misses the match at the end of "aba" |
| `Matcher.Matcher.Next` | src/Pattern.cpp:722-757 | where the loop ends at every position tried: start and end of the next match with both anchors; after a failure where the position is left |
| `IoStream.InputStream.Read` | include/mgpcl/BasicParser.h:80-87 | a read gives between one and as many bytes as asked, or reports the end or an error |
| `BasicParser.BasicParser.Refill` | include/mgpcl/BasicParser.h:78-92 | refilling loses and invents no byte, fails only at the end of the input, and then records whether that was an end or an error |
| `BasicParser.BasicParser.NextCharRaw` | include/mgpcl/BasicParser.h:94-113 | the next byte of the whole stream, which can then be put back |
| `BasicParser.BasicParser.NextNonBlankChar` | include/mgpcl/BasicParser.h:115-123 | the first byte that is not blank, across refills |
| `BasicParser.BasicParser.Expect` | include/mgpcl/BasicParser.h:125-143 | succeeds if and only if the next reads give the word, with or without regard to case, and then consumes just that |
| `Chars.SameButForCase` | include/mgpcl/BasicParser.h:125-150 | without regard to case two codes are the same, or a letter and its other case |
| `BasicParser.BasicParser.Undo` | include/mgpcl/BasicParser.h:145-149 | puts the last byte back; its assertion is a precondition that every caller meets |
| `FlatMap.InsertedContents` | include/mgpcl/FlatMap.h:76-98 | inserting at the place of the hash is map update on hashes |
| `FlatMap.HashMore` | include/mgpcl/String.h:491-502 | the hash of one more byte is the hash so far times 31 plus the byte as a signed number, up to a multiple of 2^32 |
| `FlatMap.PutInOrder` | include/mgpcl/FlatMap.h:76-98 | two entries end up in the order of their hashes, whichever is put first, and one with an equal hash is replaced |
| `FlatMap.FlatMap.Put` | include/mgpcl/FlatMap.h:76-98 | keeps the list sorted and updates the map of hashes, replacing a value under an equal hash |
| `FlatMap.FlatMap.GetIfExists` | include/mgpcl/FlatMap.h:177-201 | finds a value if and only if the hash is in the map, and then that value |
| `FlatMap.FlatMap.HasKey` | include/mgpcl/FlatMap.h:203-224 | true if and only if the hash is in the map |
| `FlatMap.FlatMap.RemoveKey` | include/mgpcl/FlatMap.h:226-248 | takes exactly that hash out of the map |
| `JsonParser.ParseStringToken` | src/JSON.cpp:250-299 | the loop with its escape flag reads what the grammar reads, in any chunks |
| `JsonParser.ParseKeyToken` | src/JSON.cpp:353-363 | an unquoted key, and its last character put back |
| `JsonParser.ParseNumberToken` | src/JSON.cpp:444-472 | digits and one dot, and the character after them put back |
| `JsonParser.ParseArray` | src/JSON.cpp:393-435 | elements, commas, trailing comma and errors as in the grammar; every undo is allowed |
| `JsonParser.ParseObject` | src/JSON.cpp:316-392 | members put into a sorted map one after the other; errors as in the grammar |
| `JsonParser.ParseJson` | src/JSON.cpp:303-502 | the parser's result and rest are those of the recursive grammar on the whole stream |
| `JsonRoundTrip.StringRoundTrip` | src/JSON.cpp:530-561 | escaping then reading gives back every byte string |
| `JsonRoundTrip.IntegerRoundTripIff` | src/JSON.cpp:575-578 | printing and reading an integer gives it back if and only if it fits 32 signed bits |
| `JsonRoundTrip.ArrayRoundTrip` | src/JSON.cpp:589-605 | a printed array is read back, from either printer |
| `JsonRoundTrip.ObjectParses` | src/JSON.cpp:607-626 | a printed object is read as the map that putting its members in turn leaves |
| `JsonRoundTrip.ObjectRoundTrip` | src/JSON.cpp:711-739 | with distinct hashes that map is the object itself, from either printer |
| `JsonRoundTrip.ValueRoundTrip` | src/JSON.cpp:303-502 | parsing what either printer wrote, at any indentation and with anything after it, returns the same tree and leaves the rest |
| `JsonRoundTrip.AloneRoundTripIff` | src/JSON.cpp:450-455 | with nothing after it a printed value is read back if and only if it is not a number |
| `JsonRoundTrip.PutAllSize` | src/JSON.cpp:388-389 | how many members survive being put one after the other |
| `JsonRoundTrip.NoMemberLostIff` | src/JSON.cpp:384-389 | reading an object keeps every member if and only if the names have different hashes |
| `JsonRoundTrip.CollidingNames` | include/mgpcl/FlatMap.h:87-89 | two different names with the same hash |
| `JsonGrammar.BlankIsSkipped` | include/mgpcl/BasicParser.h:115-123 | space, tab, carriage return and line feed are skipped before a value, an element and a member, and no other character is |
| `JsonGrammar.CharactersRead` | src/JSON.cpp:301-472 | which characters go on with an unquoted name and with a number, and which can start a value |
| `JsonGrammar.CharactersOfString` | src/JSON.cpp:250-299 | which characters end a string, fail it, or stand for themselves |
| `JsonGrammar.Escapes` | src/JSON.cpp:266-288 | what each escaped character stands for |
| `JsonGrammar.NumberKinds` | src/JSON.cpp:444-490 | a number with a dot is kept as written, any other is the integer its digits say |
| `JsonGrammar.ValueIsRead` | src/JSON.cpp:303-502 | every text of the grammar is read as what it means: any blanks, both quotes, unquoted names, a comma before the end |
| `JsonGrammar.TextOf` | src/JSON.cpp:303-502 | and whatever is read is such a text, after blanks |
| `JsonGrammar.ValueIff` | src/JSON.cpp:303-502 | so a value is read if and only if the text is, after blanks, a legal one that means it |
| `JsonGrammar.LooseExample` | src/JSON.cpp:303-502 | one text with tabs, an unquoted name, single quotes, an escaped quote and trailing commas, and the object it is read as |
| `JsonRoundTrip.EscapesWritten` | src/JSON.cpp:529-564 | which characters are printed with a backslash, and how; all others as they are |
| `JsonRoundTrip.LayoutWritten` | src/JSON.cpp:641-653 | four spaces a level, a line for each element, and a space after the colon, or none of them |
| `JsonRoundTrip.ListWritten` | src/JSON.cpp:587-753 | two elements in either printed form: brackets, comma, line breaks and indentation |
| `JsonRoundTrip.ObjectWritten` | src/JSON.cpp:606-753 | two members in either printed form: braces, quoted names, colons, comma, line breaks and indentation |
| `JsonRoundTrip.IntegerWritten` | src/JSON.cpp:576-579 | an integer is printed as a sign and the digits of its magnitude modulo 2^32 |
| `JsonPrinter.WriteStr` | src/JSON.cpp:525-528 | a string is written whole over short writes, or a prefix of it when the stream gives out |
| `JsonPrinter.SerializeStr` | src/JSON.cpp:530-561 | exactly the quoted, escaped text is written |
| `JsonPrinter.SerializeArray` | src/JSON.cpp:589-605 | brackets, commas and elements in order |
| `JsonPrinter.SerializeObject` | src/JSON.cpp:711-739 | names, colons, values and indentation in order |
| `JsonPrinter.Serialize` | src/JSON.cpp:563-747 | exactly the printed form is written if there is room, else a prefix of it and failure |
| `JsonEndToEnd.PrintThenParse` | src/JSON.cpp:303-747 | printed in writes of any size and read in chunks of any size, the same tree comes back |
| `Queue.Queue.MoveData` | include/mgpcl/Queue.h:275-285 | element by element, the elements arrive in order |
| `Queue.Queue.SwapBuffers` | include/mgpcl/Queue.h:102-111 | changing buffers keeps contents and order |
| `Queue.Queue.Offer` | include/mgpcl/Queue.h:97-115 | appends if and only if there is room, else changes nothing |
| `Queue.Queue.OfferEx` | include/mgpcl/Queue.h:117-147 | always appends, growing by half; contents and order survive, though the position is kept |
| `Queue.Queue.Poll` | include/mgpcl/Queue.h:161-173 | removes the first element if there is one |
| `Queue.Queue.First` | include/mgpcl/Queue.h:149-159 | is the oldest element |
| `Queue.Queue.SetBacklog` | include/mgpcl/Queue.h:194-212 | to at least the current size, contents and order survive |
| `Queue.Replay` | include/mgpcl/Queue.h:97-212 | over every history of calls the double buffer is a bounded sequence |
| `Queue.BoundKept` | include/mgpcl/Queue.h:97-147 | that sequence never exceeds its backlog |
| `Framing.SwapIsBigEndian` | include/mgpcl/Packet.h:229-230 | the masks and shifts store and load big-endian sizes on a little-endian machine, and undo each other |
| `Framing.FeedAllSplit` | src/TCPServer.cpp:233-287 | decoding in two parts is decoding at once, for every place to cut |
| `Framing.ReachableKept` | src/TCPServer.cpp:253-285 | less than a prefix or less than a payload is ever pending, and no empty payload comes out |
| `Framing.FeedPrefix` | src/TCPServer.cpp:263-268 | sizes up to four announce nothing, others a payload of four bytes less |
| `Framing.FeedPayload` | src/TCPServer.cpp:271-284 | a payload comes out when, and only when, its last byte is there |
| `Framing.DecodedIsPrefix` | src/TCPServer.cpp:233-287 | from any part of the frames sent, the first non-empty payloads come out; from all of them, all |
| `Framing.FramesAppend` | include/mgpcl/Packet.h:221-235 | the stream of a list of packets grows by one frame |
| `Framing.FrameLayout` | include/mgpcl/Packet.h:221-235 | a frame is its own size in four bytes, most significant first, and the payload |
| `Packet.Packet.Grow` | include/mgpcl/Packet.h:303-314 | grows by half, or to what is asked if that is more, and the payload is kept |
| `Packet.Packet.Write` | include/mgpcl/Packet.h:290-301 | writing at or before the end overwrites and extends the payload; past it, what was written is where it should be |
| `Packet.OverwrittenAt` | include/mgpcl/Packet.h:290-301 | byte by byte: the new ones where they were written, the others as before |
| `Packet.Packet.Seek` | include/mgpcl/Packet.h:175-209 | moves relative to start, position or end, and fails exactly when that is before the start |
| `Packet.Packet.Finalize` | include/mgpcl/Packet.h:221-235 | the packet is the frame of its payload, and the builder is empty |
| `Packet.AtPositionKeeps` | include/mgpcl/Packet.h:377-389 | pieces put after one another give the payload |
| `Packet.AtStartByte` | include/mgpcl/Packet.h:386 | as written, each byte is that of the last piece long enough to reach it |
| `Packet.AtStartUnwritten` | include/mgpcl/Packet.h:386 | as written, a byte that no piece reaches keeps what the allocation held |
| `Packet.FaithfulIff` | include/mgpcl/Packet.h:377-389 | every payload cut into pieces of given sizes survives if and only if there is at most one piece or pieces go to their position |
| `Packet.PrePacket.SetSize` | include/mgpcl/Packet.h:370-375 | only an empty prepacket gets a size |
| `Packet.PrePacket.Fill` | include/mgpcl/Packet.h:377-389 | takes what is missing and no more, whatever it does with it |
| `Packet.PrePacket.Finalize` | include/mgpcl/Packet.h:401-410 | hands over a buffer of the announced size and is empty again |
| `Transport.Receiver.FillFrom` | src/TCPServer.cpp:240-250 | a piece of a payload: no byte lost, and the packet delivered when it is complete |
| `Transport.Receiver.Deliver` | src/TCPServer.cpp:245-250 | a complete packet is queued, or lost when the queue is full, and it is recorded which |
| `Transport.AccountedMore` | src/TCPServer.cpp:245-250 | delivered and waiting packets stay those of the payloads taken that found room, in order |
| `Transport.KeptPlace` | src/TCPServer.cpp:245-250 | a packet that found room comes after all that did before it |
| `Transport.AdmitsLost` | src/TCPServer.cpp:245-250 | while none is taken out, as many packets are lost as the queue would be too long by |
| `Transport.Receiver.ReadPrefix` | src/TCPServer.cpp:263-269 | a length prefix is consumed, and a prepacket of the right size is started if it announces a payload |
| `Transport.Receiver.KeepRest` | src/TCPServer.cpp:254-260 | fewer than four bytes move to the front and wait |
| `Transport.Receiver.ReadFrames` | src/TCPServer.cpp:253-286 | the loop consumes all bytes, or leaves a part of a prefix |
| `Transport.Receiver.Ingest` | src/TCPServer.cpp:233-287 | one read of any size: the bytes join the stream, all invariants are kept, and the packets it completes find room as long as the queue has any |
| `Transport.Receiver.Decoded` | src/TCPServer.cpp:233-287 | the payloads taken off are those of decoding the whole stream at once, however it was cut, and so is what waits |
| `Transport.Receiver.NextPacket` | include/mgpcl/TCPServer.h:74-86 | the oldest packet, or an invalid one from an empty queue |
| `Transport.Sender.Send` | include/mgpcl/TCPServer.h:65-72 | accepted if and only if the queue has room, and then its frame will go out after all earlier ones |
| `Transport.Sender.NeedsWrite` | src/TCPServer.cpp:215-231 | fetches the next packet if none is being sent, without changing what is to be sent; false means that everything was sent |
| `Transport.Sender.Took` | src/TCPServer.cpp:307-313 | a partial send continues where it stopped, and the packet goes when its last byte has |
| `TcpServer.TcpServerClient.ReadyRead` | src/TCPServer.cpp:233-300 | bytes join the stream; the client is to be removed exactly when it closed or its errors ever reached the maximum |
| `TcpServer.TcpServerClient.ReadyWrite` | src/TCPServer.cpp:302-327 | bytes leave in order; removal as for reading, and no effect without a packet |
| `TcpClient.TcpClient.Transfer` | src/TCPClient.cpp:90-175 | reads and writes of one turn, which of them close it, and which failure counts |
| `TcpClient.TcpClient.Iterate` | src/TCPClient.cpp:63-190 | one turn of the thread: what joins the stream, what leaves, and when it stops: when closed, or when consecutive failed turns reach the maximum |
| `TcpClient.ErrorsCounted` | src/TCPClient.cpp:80-176 | which turns count as errors, case by case |
| `TcpClient.ClosesCounted` | src/TCPClient.cpp:90-175 | which turns end the thread, case by case |
| `Network.StepConserves` | src/TCPServer.cpp:215-327 | no event makes or loses a byte: arrived, on the wire, being sent and queued are the frames accepted; and each payload arrived was delivered, waits, or was lost |
| `Network.AllCanArrive` | src/TCPServer.cpp:215-327 | from every state that can be reached, some events deliver all that was accepted and not lost before |
| `Network.BurstAccepted` | src/TCPServer.cpp:197 | of payloads sent at once before the first can leave, the first 128 are accepted |
| `Network.OneRead` | src/TCPServer.cpp:235 | a read takes what there is, what was asked, or what fits into 8192 bytes behind an incomplete length prefix |
| `Link.EndToEnd` | src/TCPServer.cpp:233-327 | any received part of what was sent: the packets delivered are those of the payloads that found room, in order, sizes right, contents right where `fill` did not overwrite; everything once all has arrived |
| `Link.MakePacket` | include/mgpcl/Packet.h:221-301 | building and finalizing a packet gives the frame of the payload |
| `Link.Happen` | src/TCPServer.cpp:215-327 | each event takes both halves and the bytes between them from one state to the next |
| `Link.Exchange` | src/TCPClient.cpp:63-190 | over every interleaving of queueing, partial sends, partial reads and reading packets, the connection is in the state that the events give on plain values, and what is delivered is the beginning of what was sent, less what found the queue full |
| `Hasher.FoldTwice` | include/mgpcl/Hasher.h:63-65 | each xor-shift undoes itself |
| `Hasher.MultiplyBack` | include/mgpcl/Hasher.h:63-64 | the multiplication is undone by the inverse modulo 2^32 |
| `Hasher.MixIsPermutation` | include/mgpcl/Hasher.h:57-69 | the hash is a permutation of the 32-bit words, with its inverse |
| `Hasher.FoldHalves` | include/mgpcl/Hasher.h:63-65 | an xor-shift keeps the upper half and adds it to the lower one bit by bit |
| `Hasher.KnownHash` | include/mgpcl/Hasher.h:57-69 | the hash of 1 |
| `Hasher.IntHashInjective` | include/mgpcl/Hasher.h:57-69 | different integers have different hashes |
| `Hasher.OneKeyHasNoBucket` | include/mgpcl/HashMap.h:238-239 | exactly one integer hashes to the number without absolute value |
| `HashTable.Added` | include/mgpcl/HashMap.h:256 | a pair appended to the bucket of a new hash is a new map entry |
| `HashTable.Updated` | include/mgpcl/HashMap.h:251-254 | a new value in the pair found is map update |
| `HashTable.Removed` | include/mgpcl/HashMap.h:319-321 | the pair taken out of its bucket is out of the map |
| `HashTable.Enumerates` | include/mgpcl/HashMap.h:53-83 | bucket by bucket, the pairs are those of the map, with different hashes, as many as it has |
| `HashTable.InOrder` | include/mgpcl/HashMap.h:53-83 | pairs are met in the order of the remainder of the size of their hash by the number of buckets |
| `HashMap.HashMap.Get` | include/mgpcl/HashMap.h:236-258 | the pair of the hash, made if it was missing; no other entry changes |
| `HashMap.HashMap.Put` | include/mgpcl/HashMap.h:277-280 | assignment through the reference updates the map, and keeps the key first stored |
| `HashMap.HashMap.GetConst` | include/mgpcl/HashMap.h:260-275 | the value under the hash, or the default value |
| `HashMap.HashMap.HasKey` | include/mgpcl/HashMap.h:287-301 | true if and only if the hash is in the map |
| `HashMap.HashMap.RemoveKey` | include/mgpcl/HashMap.h:303-330 | exactly that hash leaves the map, with or without its bucket |
| `HashMap.HashMap.DoubleBuckets` | include/mgpcl/HashMap.h:332-352 | twice the buckets and the same map |
| `HashMap.HashMap.Clear` | include/mgpcl/HashMap.h:364-372 | the map is empty and the count as before: sound if and only if it was empty |
| `HashMap.ManualInsert` | include/mgpcl/HashMap.h:385-393 | a pair whose hash is not yet there is added to the new buckets |
| `HashMap.Iterator.Begin` | include/mgpcl/HashMap.h:46-60 | starts at the first pair, past empty buckets |
| `HashMap.Iterator.Increment` | include/mgpcl/HashMap.h:63-75 | goes to the next pair of the enumeration, or to the end |
| `HashMap.Iterator.Decrement` | include/mgpcl/HashMap.h:85-97 | from anywhere but the first pair, goes to the one before |
| `HashMap.OffsetsDiffer` | include/mgpcl/HashMap.h:63-97 | places in the enumeration are unique, so that a step back undoes a step forward |
| `HashMap.VisitAll` | include/mgpcl/HashMap.h:53-83 | a loop from begin to end visits every pair of the map once |
| `HashMap.ReplayHashes` | include/mgpcl/HashMap.h:236-352 | over every history of keys that have a bucket, the buckets hold what a map from hashes does |
| `HashMap.AgreesIffInjective` | include/mgpcl/HashMap.h:240-257 | for any hash and any set of keys: over every history on them the map agrees with the one that compares keys if and only if no two of them have the same hash |
| `HashMap.SizesAgree` | include/mgpcl/HashMap.h:240-257 | as many pairs as keys |
| `HashMap.Replay` | include/mgpcl/HashMap.h:236-352 | over every history without the one excluded key, the map with integer keys is the map that compares keys, and so is its size |
| `BnSqrt.BitLengthIff` | src/BigNumber.cpp:616-645 | a number has k bits if and only if it is from 2^(k-1) up to, but not, 2^k |
| `BnSqrt.FirstBit` | src/BigNumber.cpp:616-623 | the first bit is a quarter of the unit times a square that exceeds the number |
| `BnSqrt.NextDigit` | src/BigNumber.cpp:629-639 | a turn of the loop finds one more binary digit of the root |
| `BnSqrt.Sqrt` | src/BigNumber.cpp:612-645 | terminates; for 2^(2k-1) <= src < 2^(2k) with the square root, for 2^(2k) <= src < 2^(2k+1) with it exactly for 4, 5, 6, 7, 16 and 17, and in general with the unit times the root of the number in units, the unit being 1 for even bit lengths and 2 for odd ones |
| `BnSqrt.CorrectIff` | src/BigNumber.cpp:623 | the result is the square root if and only if the bit length is even or the number is 4, 5, 6, 7, 16 or 17 |
| `LineReader.LineReader.RefillBuffer` | include/mgpcl/LineReader.h:178-190 | bytes join the buffer; full buffer, end and error told apart; nothing passed becomes a terminator |
| `LineReader.LineReader.Scan` | include/mgpcl/LineReader.h:120-138 | stops at the first terminator in the buffer, or knows that there is none |
| `LineReader.LineReader.Next` | include/mgpcl/LineReader.h:115-160 | the line before the first terminator of the stream if it fits with it, whatever the chunks; otherwise why not |
| `LineReader.ReadLines` | include/mgpcl/LineReader.h:115-160 | successive calls give the lines of the stream in order, and how it ends |
| `LineReader.LinesOfJoined` | include/mgpcl/LineReader.h:115-160 | lines that fit, written one after the other with their terminators, are the lines read, for all three endings |
| `LineReader.LineRead` | include/mgpcl/LineReader.h:115-160 | in characters, for all three endings: a line ends before the first terminator that the reader was told, and nowhere else |
| `Scheduler.Worker.Earliest` | src/Scheduler.cpp:117-121 | the first of the tasks due soonest |
| `Scheduler.Worker.Choose` | src/Scheduler.cpp:117-143 | the task due soonest is dropped if cancelled, otherwise started when it is due at the time given, which is recorded, and awaited for exactly what is missing when it is not |
| `Scheduler.Worker.Turn` | src/Scheduler.cpp:111-143 | by the time given, stops, waits, drops a cancelled task, or waits for or starts the task due soonest when it is due |
| `Scheduler.Worker.WaitOver` | src/Scheduler.cpp:132-143 | after a signal the choice starts over; after the time the task is still where it was, and is dropped, waited for or started |
| `Scheduler.Worker.Finish` | src/Scheduler.cpp:148-157 | a regular task stays and is due an interval from now, another is deleted, once, and it is the right one |
| `Scheduler.Worker.Dispatch` | src/Scheduler.cpp:76-84 | while the lock is free a task joins the end of the list, so that no remembered place moves |
| `Scheduler.Live` | src/Scheduler.cpp:100-159 | over every interleaving: each task in the list or deleted; every time it records is what the clock of the events showed at a step of the worker, its first due time that clock plus its delay; never early, one-shot tasks at most once, regular ones an interval after their last finish |
| `Crc32.TableIsRight` | include/mgpcl/CRC32_Poly.h:23-27 | every one of the 256 entries is its index shifted out of the register with the polynomial |
| `Crc32.ShiftedSum` | src/Util.cpp:391-400 | shifting the register is linear |
| `Crc32.BitAhead` | src/Util.cpp:391-400 | message bits may be in the register before they are taken |
| `Crc32.ByteByTable` | src/Util.cpp:394 | one table step is eight shifts, most significant bit first |
| `Crc32.Crc32` | src/Util.cpp:391-400 | the loop computes the bitwise register for every message and start value |
| `Crc32.RegisterSplit` | src/Util.cpp:391-400 | the checksum of a concatenation continues from that of its first part |
| `Crc32.CheckValue` | src/Util.cpp:391-400 | the checksum of the digits 1 to 9, the polynomial's check value |
| `Base64.EncodedLength` | src/Util.cpp:232-282 | four characters for every three bytes begun |
| `Base64.Alphabet` | src/Util.cpp:230 | the 64 letters in their order, and their values |
| `Base64.EncodedBits` | src/Util.cpp:246-281 | each character is the letter of its six bits of the data, bits past the end being zero and characters past them padding |
| `Base64.Encode` | src/Util.cpp:232-282 | the loop and its two endings append the encoding |
| `Base64.DecodedFits` | src/Util.cpp:284-360 | whatever is accepted decodes to at most the estimated number of bytes |
| `Base64.EstimateOfEncoding` | src/Util.cpp:289-312 | for an encoding, the estimate is the number of bytes encoded |
| `Base64.Decode` | src/Util.cpp:284-360 | which inputs are accepted, what is written for them, and that nothing at or past the estimate is ever written, accepted or not |
| `Base64.RoundTrip` | src/Util.cpp:232-360 | decoding an encoding gives back every byte string |
| `Base64.EncodingIffCanonical` | src/Util.cpp:284-360 | an accepted string is the encoding of what it decodes to if and only if it is canonical |

## Left out

- Rounding, the accuracy of sine and cosine, and the polynomials of `include/mgpcl/SSE.h`: arithmetic is exact, and the four-lane sine and cosine are those of the lanes. `absSSE` and `abs2SSE` are one line of arithmetic each.
- Memory alignment beyond the indices of vector loads and stores, and index arithmetic that wraps at 32 bits in the transform.
- Allocation, placement new, destructors, reference counts, moves and copies: nodes, packets and bucket lists are values or indices into a list, and a null pointer is a constructor. The hash map's lists are sequences.
- `PatternNode::optimize`, whose call is commented out; pattern and JSON error texts; the line and column counters of the parser.
- Pattern.Pattern.ParseNode: for `%` classes without a range the source passes an uninitialised flag on; the model lets it be either value where it makes no difference to the atom.
- PatternLanguage.CompiledIsExpectedIff: where only lists inside groups that can be left out have a clash, either may be the case; no condition on the syntax is given for which.
- MatcherRight.AlwaysRightIff: where something that can be left out is not sound, the matcher may be right about every text all the same, as it is for `a.?` (`PatternExamples.RightWithDotExample`); no condition on the syntax is given for which.
- MatcherHalting.AlwaysEndsIff: where an optional group hides a repeated group that can be empty, or an atom cannot be passed, the loop may end on every text all the same (`PatternExamples.HiddenTrapExample`); what decides it there is `MatcherOrder.NeverEndsIff`, text by text.
- Matcher.Matches: a call that would never return is not a call of the model; when a call returns is the subject of `MatcherHalting`.
- Matcher.Matcher.Next: captures are the whole match, as in the source.
- JsonParser.ParseJson: negating the least integer, undefined in C++, wraps here; numbers with a dot are kept as text, since their conversion is not modelled.
- JsonPrinter.Serialize: the two printers are one method with a flag; the leading tabs that the second writes itself, unless a negated indentation tells it not to, are written by the caller.
- FlatMap.FlatMap.Put: `operator []` and `get` search in the same way and are not modelled again.
- Queue.Queue.MoveData: the branch for trivial element types passes the number of elements where bytes are meant; the model moves element by element, as the other branch does.
- Queue.Queue.OfferEx: a full queue with a backlog of 0 or 1 grows by nothing and the source then writes past its buffer; the model requires room or a backlog of at least 2.
- Queue.Queue.SetBacklog: below the current size the source copies past its new buffers; the model requires at least that size.
- Packet.Packet.Write: positions and lengths do not wrap at 32 bits; after seeking past the end the bytes in between are whatever the allocation held.
- Transport.Sender.Send: the packet is one that `Packet.Finalize` made; a received packet has no length prefix and must not be sent again.
- The select loop of the server, accepting and removing clients, callbacks, and the locks around the two packet queues, each of which is one step here.
- Stores and loads of the length prefix are those of a little-endian machine.
- HashMap.HashMap.Get: a hash equal to the least integer has no absolute value and is excluded; the value of a new pair is arbitrary until it is assigned. Copying and moving maps is left out.
- BnSqrt.Sqrt: big numbers are natural numbers, and a result allocated or copied is a result.
- LineReader.LineReader.Next: `setLineEnding` and `setMaxLineLength` between calls are left out: neither resets the position and the length that belong to the old setting.
- Scheduler.Worker.Turn: the clock does not wrap; a task that its owner cancels after the worker has deleted it is a use of a dead pointer and is excluded; how tasks are spread over workers is left out. The cancel flag is not under the lock: a cancel between the worker's test of it and the call is here one that comes while the task runs.
- Base64.Decode: the length times three fits 32 bits, as the estimate assumes.
- OpenSSL wrappers, files, serial ports, processes, consoles, HTTP, `ReadWriteLock`, configuration files, and the vector and matrix types.
