# Verified model of GuardX

GuardX is a guardrail platform for language-model traffic: a control plane in Python that keeps policies
and an evidence log, and a gateway in Go that scans and rewrites text. This project models the parts of
it whose correctness is not visible in one function body, and proves what they promise.

| files | what they model |
|---|---|
| `AhoSpec`, `AhoWave`, `AhoCorasick` | the keyword automaton: trie, breadth-first failure links, search |
| `Scanner`, `Spans`, `SpanTies`, `SpanCover` | rule selection by keyword, candidates, overlap removal in Go and Python |
| `OnFail`, `Actions`, `Splice`, `Redaction`, `Discretion` | redaction and masking of a text, and what they hide |
| `Utf8`, `Json`, `CanonicalText`, `CanonicalRoundTrip`, `JsonText`, `GoCanonical`, `GoWriter`, `GoReading` | canonical JSON in both languages |
| `Evidence`, `Chain`, `EvidenceStore`, `GoVerifier` | the evidence hash chain, ingestion, anchors, both verifiers |
| `Inheritance*`, `PythonEquality`, `PolicyCompiler`, `WrittenPaths`, `ProfileChain` | deep merge of policy layers with its override trace; ancestors of a profile |
| `Emitter`, `EmitterWorkers`, `EvidenceDelivery` | the gateway's evidence queue, batches and spool, and the store they are posted to |
| `Registry`, `Bundles`, `Distribution`, `Poller`, `PolicyIndex` | policy lifecycle, bundle selection, polling and installing, the policy index |
| `Luhn`, `Iban` | card, routing and account number checksums |
| `Wilson`, `Autotuner` | the score interval and the threshold search |

How it is built. Code that updates state in place is a class or a loop proved against a function or a
predicate, and the laws are lemmas about those. The automaton is a heap graph whose ghost map from paths
to nodes ties it to sets of byte strings. The printers take the text that follows, which makes
"appends to a shared buffer" and the decoder's round trip the same induction. The emitter and bundle
distribution are state machines whose actions are the steps between two synchronisation points, so that
a run is any interleaving; the methods of their classes are shown to be runs when nothing interferes.
SHA-256, timestamp parsing and rendering, regular expressions, entropy, validators and the square root
are uninterpreted functions; tamper evidence is stated without assuming an injective hash, by returning
the colliding byte strings.

## What the code does differently from its documentation

Each of these is a theorem. Where a promise fails for some inputs only, one lemma gives such an input and
another the exact condition under which it is kept (for timestamps, whose parsing is uninterpreted, the
condition alone).

- Overlap removal (`scanner.go`, "keeps the highest-confidence span in any overlapping range"): a
  replaced span may have been the only thing in the way of another, so a dropped span can overlap nothing
  that is kept (`Spans.DroppedMayBeUncovered`). For given intervals that never happens exactly when overlap
  is transitive on them (`SpanCover.DroppedAreCoveredIff`).
- Rewriting (`action.go`, "overlap — already covered"): a skipped span may reach further than the chosen
  one (`Redaction.TailIsLeftOut`; exactly when in `Redaction.OverlapTailIsKept` for one sorted order and
  `Redaction.CoveredIffSafe` for all the sort may produce), and a redaction may be covered by a mask, which
  shows four bytes of it (`Discretion.MaskAnswersForRedaction`, `Discretion.TieDecidesWhatIsShown`).
  `Redaction.ByteIsHidden` says which bytes show, and `Discretion.KeptIffDiscreet` when none shows that was
  asked to be hidden.
- A rule all of whose keywords are empty strings never runs (`Scanner.EmptyKeywordsNeverRun`).
- Key order is code-point order, which is not RFC 8785's UTF-16 order outside the BMP
  (`Utf8.KeyOrderIsUtf16Order`, `Utf8.SurrogatesSortFirst`).
- The two languages escape `<`, `>`, `&`, U+2028 and U+2029 differently (`GoWriter.LanguagesAgree`,
  `GoWriter.LessThanIsWrittenDifferently`), so genuine events with them fail the stand-alone verifier
  (`GoVerifier.SpecialCharactersAreRejected`).
- "Any edit breaks the chain": not of `is_shadow` (`Chain.ShadowFlagIsNotCovered`), and not after the last
  anchor (`Chain.SuffixIsReplaceable`). A genuine chain fails verification when a timestamp came in a form
  other than the rendered one (`Chain.GenuineChainVerifies`).
- "Any leaf that is overridden is recorded": not when a bool meets the number Python takes it for, and
  only then (`InheritanceUnrecorded.OneForTrueIsUnrecorded`,
  `InheritanceUnrecorded.UnrecordedOverride`). Merging onto the empty layer is not silent
  (`InheritanceIds.EmptyParentTrace`). With removal markers composition need not be associative
  (`InheritanceLaws.MarkersDoNotAssociate`, and exactly when the ids agree in `InheritanceMarkers.MarkersAssociate`), and
  with repeated ids it need not be idempotent (`InheritanceIds.RepeatedIdsAreNotIdempotent`, and exactly
  when in `InheritanceNoChange.SelfMergeIff`). An entry's replaced need not be the layer the old value came
  from (`InheritanceLayers.ReplacedMayMissTheSource`, and exactly when in
  `InheritanceLayers.ReplacedIsTheSourceIff`).
- The replay loop's comment says it tries one line at a time; it posts the whole spool as one batch
  (`EmitterWorkers.HTTPEmitter.ReplayOnce`).
- The comment of the guard merge speaks of `spec.guards`; any key that ends in `spec` will do
  (`InheritanceMerge.PathTests`).
- "The payload is never lost while disk has room": an Emit that overlaps Close can lose its event
  (`Emitter.OverlappingEmitLosesTheEvent`; without such an overlap none is lost,
  `Emitter.ShutdownLosesNothing`), and a spool can be replayed only while the server would take it as one
  batch (`Emitter.SpoolDrainsIff`): never again after a reply was lost (`Emitter.LostReplyWedgesTheSpool`,
  `Emitter.ALostReply`).
- The threshold put forward is not the one evaluated (`Autotuner.RoundingCanBreakTheCeiling`; its counts
  hold exactly when no sample lies between, `Autotuner.RoundedCounts`).

What it keeps: "same input + same ruleset version ⇒ same verdict" (`scanner.go`). Score and verdict of a scan
are determined (`Scanner.SameVerdict`, `Scanner.ScanScore`). The spans, and with them the rewritten text, are not, since the sort
leaves ties open (`Spans.TiesDecideTheSpan`; exactly when a tie shows in `SpanTies.DeterminedIff`).

Two differences are of the model's inputs and constants, which are the code's:

- Ingestion does not compare an incoming prev_event_hash with the head, as its module comment says; it has no
  such input and fills the field in itself.
- The threshold search starts at 0.05 where its comment says 0.5, and asks for 20 samples with 10 of each
  label where the header says 50 and 50.

## Model

| member | source | states |
|---|---|---|
| `AhoSpec.StepIsLongestSuffix` | gateway/internal/detector/secrets/aho.go:89-99 | following failure links until an edge fits leads to the longest suffix of what was read that is a trie path |
| `AhoSpec.FailOfChild` | gateway/internal/detector/secrets/aho.go:62-74 | the walk that builds a failure link finds the longest proper suffix of the child's path that is a trie path |
| `AhoSpec.OutsOfNode` | gateway/internal/detector/secrets/aho.go:75-75 | own keywords plus those of the failure link are all keywords that end at a node |
| `AhoSpec.OutsOfLongest` | gateway/internal/detector/secrets/aho.go:100-102 | the keywords at the longest suffix are all keywords that end at the byte read, although longer ones may have run past the trie |
| `AhoSpec.SeenByAll` | gateway/internal/detector/secrets/aho.go:86-103 | a keyword was reported at some byte exactly when it occurs in the text |
| `AhoWave.WaveStep` | gateway/internal/detector/secrets/aho.go:59-78 | serving the head of the queue keeps the breadth-first order: every shorter path was linked before a longer one is served |
| `AhoWave.WaveEnd` | gateway/internal/detector/secrets/aho.go:59-59 | when the queue is empty every path of the trie was served |
| `AhoCorasick.AhoTrie.Insert` | gateway/internal/detector/secrets/aho.go:38-51 | adds one keyword: the paths become the old ones and the prefixes of its lower-cased form, and the trie stays a tree over exactly those paths |
| `AhoCorasick.AhoTrie.FindFail` | gateway/internal/detector/secrets/aho.go:63-74 | the pointer walk returns the node of the longest proper suffix that is a path |
| `AhoCorasick.AhoTrie.SetFail` | gateway/internal/detector/secrets/aho.go:67-75 | links one node: failure pointer and outputs are what the specification says, and no other node changes |
| `AhoCorasick.AhoTrie.Expand` | gateway/internal/detector/secrets/aho.go:60-77 | links all children of the node served, whatever the order of the map, and returns each once |
| `AhoCorasick.AhoTrie.BuildFailLinks` | gateway/internal/detector/secrets/aho.go:53-79 | turns a tree without links into a complete automaton: every node linked to its longest proper suffix |
| `AhoCorasick.AhoTrie.Advance` | gateway/internal/detector/secrets/aho.go:90-99 | one byte: moves to the longest suffix, and pays for its failure links with depth |
| `AhoCorasick.AhoTrie.ReadByte` | gateway/internal/detector/secrets/aho.go:88-102 | keeps the node at the longest suffix of the text read so far and reports the keywords that end there |
| `AhoCorasick.AhoTrie.Search` | gateway/internal/detector/secrets/aho.go:86-103 | finds exactly the keywords that the text mentions, each byte equal or the other case of the same ASCII letter, with at most as many failure links as bytes |
| `AhoCorasick.AhoTrie.MatchKeywords` | gateway/internal/detector/secrets/aho.go:82-109 | returns each keyword that the text mentions in that sense once and nothing else; a missing automaton finds nothing |
| `Ascii.MentionsFolds` | gateway/internal/detector/secrets/aho.go:111-116 | a text mentions a keyword exactly when its folded form contains the folded keyword |
| `AhoCorasick.BuildAho` | gateway/internal/detector/secrets/aho.go:20-36 | a complete automaton over the non-empty keywords; none for an empty list |
| `Scanner.Scanner.Load` | gateway/internal/detector/secrets/scanner.go:85-114 | the keyword index holds for every keyword exactly the rules that name it, and the automaton is over all of them |
| `Scanner.Scanner.Hits` | gateway/internal/detector/secrets/scanner.go:124-136 | the rules selected are the global ones and those with a keyword that occurs |
| `Scanner.Engine.EarlySkipDropsNothing` | gateway/internal/detector/secrets/scanner.go:140-142 | a rule skipped for its confidence has no candidate that the later threshold test would keep |
| `Scanner.Engine.WhoIsACandidate` | gateway/internal/detector/secrets/scanner.go:143-164 | the candidates of a rule are the spans of its matches whose entropy reaches the rule's minimum, if it has one, that every validator accepts, and whose confidence, raised by a tenth of the excess entropy up to 1, reaches the threshold |
| `Scanner.Scanner.RunRule` | gateway/internal/detector/secrets/scanner.go:143-164 | the candidates of one rule: threshold, entropy and validators as specified |
| `Scanner.PrefilterIsLossless` | gateway/internal/detector/secrets/scanner.go:124-165 | the prefiltered candidates are those of running every rule exactly when each rule left out has none; so whenever every match of a keyworded rule implies one of its keywords |
| `Scanner.EmptyKeywordsNeverRun` | gateway/internal/detector/secrets/scanner.go:103-112 | a rule all of whose keywords are empty strings is neither global nor ever selected |
| `Scanner.Scanner.Scan` | gateway/internal/detector/secrets/scanner.go:120-167 | the spans kept are the sweep of some sorted order of exactly the prefiltered candidates |
| `Scanner.ScanScore` | gateway/internal/detector/secrets/scanner.go:166-178 | the score of a scan is that of all candidates, whatever order the rule map was walked in |
| `Scanner.SameVerdict` | gateway/internal/detector/inproc_secrets.go:35-43 | two scans of one text with one set of rules have one score and one verdict, whatever ties and map order, and fail exactly when some candidate has a positive confidence |
| `Spans.DedupOverlapsGo` | gateway/internal/detector/secrets/scanner.go:183-208 | in place: the front of the slice becomes the sweep of some sorted order of the input |
| `Spans.Compact` | gateway/internal/detector/secrets/scanner.go:193-207 | the write index never overtakes the read index, so overwriting the slice being read loses nothing |
| `Spans.DedupOverlapsPython` | detectors/pii/pii_detector/detector.py:64-76 | the sweep of the stably sorted input |
| `Spans.DedupGuarantees` | gateway/internal/detector/secrets/scanner.go:183-208 | of non-empty spans, in either language, the kept ones are sorted by start, pairwise disjoint and taken from the input, and every span strictly more confident than all it overlaps is among them |
| `Spans.KeptAreDisjoint` | gateway/internal/detector/secrets/scanner.go:197-205 | the sweep alone keeps spans disjoint, even empty ones |
| `Spans.SweepKeepsScore` | gateway/internal/detector/secrets/scanner.go:198-201 | overlap removal keeps the largest confidence |
| `Spans.ScoreIsMax` | gateway/internal/detector/secrets/scanner.go:170-178 | the score is an upper bound of all confidences and, when positive, reached |
| `Spans.DedupScore` | detectors/pii/pii_detector/detector.py:64-80 | score after removal does not depend on the order of the input, on sort ties or on the language |
| `Spans.TiesDecideTheSpan` | gateway/internal/detector/secrets/scanner.go:187-192 | an example of two tied spans of which either may survive |
| `SpanTies.DeterminedIff` | gateway/internal/detector/secrets/scanner.go:187-207 | for non-empty spans the result is one and the same for every order the sort may leave ties in exactly when sweeping with the shorter of tied spans first keeps none that ties with a different one |
| `SpanTies.NoTiesDetermine` | gateway/internal/detector/secrets/scanner.go:187-207 | so the same input gives the same spans when no two different ones tie in start and confidence |
| `SpanTies.LongerOfTiedSurvives` | detectors/pii/pii_detector/detector.py:64-76 | in Python a span that is kept is at least as long as any of the input with its start and confidence |
| `Spans.DroppedMayBeUncovered` | gateway/internal/detector/secrets/scanner.go:180-182 | an example of a dropped span that overlaps no span that is kept |
| `SpanCover.DroppedAreCoveredIff` | gateway/internal/detector/secrets/scanner.go:180-206 | for given non-empty intervals every dropped span overlaps a kept one, under all confidences and orders of ties, exactly when overlap is transitive on them |
| `OnFail.ApplyActions` | gateway/internal/detector/action.go:15-88 | over the outcomes: the flag is set exactly by a failing guard in force with block or block_and_explain; the actions are those of such guards, two of them deferred; a span asked for by such a redact guard and overlapping no other request stands in the output as its label in brackets, and one asked for by a mask guard as stars and, beyond four bytes, its last four; blocked text is returned unchanged |
| `OnFail.AloneIsPicked` | gateway/internal/detector/action.go:59-67 | a span that overlaps no other request is chosen, whatever order the sort leaves the edits in |
| `Actions.RewriteOnce` | gateway/internal/detector/action.go:61-87 | the cursor loop writes the text with the chosen spans replaced and every other byte kept in order |
| `Actions.DedupStrings` | gateway/internal/detector/action.go:90-104 | in place: the front of the slice becomes the first occurrences in order |
| `Actions.DistinctIsFirstOccurrences` | gateway/internal/detector/action.go:94-103 | the same strings, each once, in the order they first occur |
| `Actions.PicksAreDisjoint` | gateway/internal/detector/action.go:64-67 | the spans chosen do not overlap |
| `Actions.PickedFrom` | gateway/internal/detector/action.go:64-67 | every span chosen was requested |
| `Actions.EveryEditAnswered` | gateway/internal/detector/action.go:64-67 | every requested span starts inside a chosen one |
| `Splice.KeepsOtherBytes` | gateway/internal/detector/action.go:68-86 | every byte outside the replaced spans is in the output, shifted by the lengths replaced before it |
| `Splice.WritesPatches` | gateway/internal/detector/action.go:69-83 | every replacement is in the output at its place |
| `Splice.SplicedLength` | gateway/internal/detector/action.go:61-87 | the length of the output |
| `Actions.MaskKeepsLength` | gateway/internal/detector/action.go:74-82 | masking alone keeps the length of the text |
| `Actions.DisjointSpansAllRewritten` | gateway/internal/detector/action.go:60-67 | pairwise disjoint non-empty spans are all rewritten, whatever the order of the outcomes and the sort |
| `Actions.IdleOutcomesDoNothing` | gateway/internal/detector/action.go:24-32 | deleting shadow and non-failing outcomes changes neither edits nor actions |
| `Actions.IdleOutcomesNeverBlock` | gateway/internal/detector/action.go:24-37 | nor the block flag |
| `Redaction.ByteIsHidden` | gateway/internal/detector/action.go:68-86 | the output depends on a byte of the text exactly when no chosen span hides it: it is in none, or among the last four bytes of a longer masked one |
| `Redaction.OverlapTailIsKept` | gateway/internal/detector/action.go:64-67 | for every sorted list of spans, some requested byte is in no chosen span exactly when a chosen one ends inside a requested one and no requested one begins there |
| `Redaction.TailIsLeftOut` | gateway/internal/detector/action.go:65-67 | an example: of two overlapping redactions the second keeps its last bytes in the output |
| `Redaction.CoveredIffSafe` | gateway/internal/detector/action.go:60-67 | a request of non-empty spans has every byte in a chosen span, in all orders the sort may leave ties in, exactly when it passes a test made before the text is touched; a chosen span may still be a mask that shows four bytes |
| `Discretion.HiddenIffDiscreet` | gateway/internal/detector/action.go:60-84 | every byte that some span asks to hide is hidden by a chosen one, in all orders the sort may leave ties in, exactly when a walk over the request, made before the text is touched, finds that each span that can be chosen next hides all that is asked for up to its end |
| `Discretion.KeptIffDiscreet` | gateway/internal/detector/action.go:60-87 | the same for the output: it depends on no byte that was asked to be hidden, in any such order, exactly when the request without its empty spans passes that walk |
| `Discretion.MaskAnswersForRedaction` | gateway/internal/detector/action.go:65-82 | an example without a tie: a chosen mask covers a redaction inside it and shows four of its bytes |
| `Discretion.TieDecidesWhatIsShown` | gateway/internal/detector/action.go:60-60 | an example with a tie: the sort decides whether a redaction or a mask of one span is chosen, and so whether four bytes show |
| `Utf8.DecodeOfEncode` | control/guardx_control/signing/canonical.py:50-50 | UTF-8 decoding inverts encoding |
| `Utf8.EncodeOfDecode` | control/guardx_control/signing/canonical.py:50-50 | only encodings decode, and to what encodes back to them (no overlong forms, no surrogates) |
| `Utf8.EncodedPoint` | control/guardx_control/signing/canonical.py:50-50 | one to four bytes by the table of RFC 3629 section 3 |
| `Utf8.LessMeans` | control/guardx_control/signing/canonical.py:24-24 | keys are compared by code point, a prefix coming first |
| `Utf8.ByteOrderIsCodePointOrder` | gateway/internal/bundle/canonical.go:71-71 | sorting keys by UTF-8 bytes, as Go does, is sorting them by code point, as Python does |
| `Utf8.KeyOrderIsUtf16Order` | control/guardx_control/signing/canonical.py:22-24 | that order is the UTF-16 order of RFC 8785 section 3.2.3 exactly when the first difference does not set a surrogate pair against a higher BMP character |
| `Utf8.UnitsOfPoint` | control/guardx_control/signing/canonical.py:22-24 | UTF-16 code units of a code point |
| `Utf8.SurrogatesSortFirst` | control/guardx_control/signing/canonical.py:22-24 | an example: U+E000 and U+10000 |
| `Json.SortMembersSorts` | control/guardx_control/signing/canonical.py:24-24 | sorting the members gives strictly ascending keys and the same members |
| `Json.CanonIsCanon` | control/guardx_control/signing/canonical.py:20-38 | the normal form has sorted keys and no integral float within 10^15 at any depth |
| `Json.CanonDecides` | control/guardx_control/signing/canonical.py:20-38 | two documents have one normal form exactly when they are equal up to member order, an integer and a float of the same value counting as equal |
| `CanonicalRoundTrip.DecodedOfCanonical` | control/guardx_control/signing/canonical.py:41-50 | a decoder recovers the normal form of every acceptable document, of any depth, from its canonical bytes |
| `CanonicalRoundTrip.IntegralFloatsAreIntegers` | control/guardx_control/signing/canonical.py:36-37 | an integral float within 10^15 reads back as the integer of its value |
| `CanonicalRoundTrip.WholeWithinLimit` | control/guardx_control/signing/canonical.py:36-36 | beyond 10^15 a float is no whole number |
| `CanonicalRoundTrip.CanonicalOfDecoded` | control/guardx_control/signing/canonical.py:41-50 | the decoder accepts only canonical bytes, and encoding again gives them back |
| `CanonicalRoundTrip.BytesDecide` | control/guardx_control/signing/canonical.py:41-50 | two documents have the same canonical bytes exactly when they are the same up to member order |
| `JsonText.PrintersPrintText` | control/guardx_control/signing/canonical.py:41-50 | both printers give the text of the document as RFC 8259 writes it: literals, decimal numbers, two-character and \u00 escapes, items and members with commas between; Go with five more escapes |
| `GoCanonical.GoAgrees` | gateway/internal/bundle/canonical.go:100-108 | the two languages print a normal form alike exactly when no string or key holds <, >, &, U+2028 or U+2029 |
| `GoReading.GoTextIsReadable` | gateway/internal/bundle/canonical.go:100-108 | undoing Go's five escapes and decoding recovers the document, so different normal forms have different texts in Go too |
| `GoWriter.WriteQuoted` | gateway/internal/bundle/canonical.go:100-108 | appends the escaped string to the shared buffer |
| `GoWriter.WriteArray` | gateway/internal/bundle/canonical.go:55-65 | appends the items with commas between |
| `GoWriter.WriteObject` | gateway/internal/bundle/canonical.go:66-85 | appends the members in sorted key order, looking each value up again |
| `GoWriter.WriteCanonical` | gateway/internal/bundle/canonical.go:25-90 | appends the canonical text of a value to whatever the buffer holds |
| `GoWriter.CanonicalJSON` | gateway/internal/bundle/canonical.go:17-23 | the bytes of the normal form in Go's printing; the stand-alone verifier's encoder (harness/verify_chain/main.go:148-214) has the same branches |
| `GoWriter.LanguagesAgree` | gateway/internal/bundle/canonical.go:15-16 | both languages produce the same bytes exactly when the document is free of the five characters |
| `GoWriter.LessThanIsWrittenDifferently` | gateway/internal/bundle/canonical.go:100-108 | an example: the string of a less-than sign |
| `Evidence.BytesFixFields` | control/guardx_control/evidence/chain.py:46-54 | the hashed bytes of two events are equal exactly when all 21 chain fields are |
| `Evidence.HashedFields` | control/guardx_control/evidence/chain.py:20-44 | each of the 21 fields stands under its name in the hashed document, and nothing else |
| `Evidence.SameHash` | control/guardx_control/evidence/chain.py:51-54 | equal fields hash alike; different fields with one hash are a collision of the digest, which is returned |
| `EvidenceStore.SortByTimeSorts` | control/guardx_control/api/evidence.py:129-131 | the bucket sort is a stable permutation into time order |
| `EvidenceStore.EarlierFirst` | control/guardx_control/api/evidence.py:129-131 | in the sorted bucket earlier instants come first |
| `EvidenceStore.Group` | control/guardx_control/api/evidence.py:122-124 | every event goes into the bucket of its tenant and app, in order |
| `EvidenceStore.AppendBucket` | control/guardx_control/api/evidence.py:143-171 | extends one chain by the rows of its events and leaves all other chains unchanged |
| `EvidenceStore.Store.Ingest` | control/guardx_control/api/evidence.py:115-177 | accepts exactly the acceptable batches; each chain then holds its old events followed by its share of the batch in time order; a refused batch changes nothing; seqs 1..n, links, heads and anchors stay right |
| `EvidenceStore.WhoIsStorable` | control/guardx_control/models/evidence.py:30-33 | of what the schema lets through, an event is stored when its timestamp parses, its mode is one of three, and its score and, unless the mode drops them, its spans are finite |
| `EvidenceDelivery.StoredPayload` | control/guardx_control/evidence/minimizer.py:19-31 | every row has the payload, instant and shadow flag of an accepted event, without its spans exactly in mode none |
| `Chain.ChainIsDetermined` | control/guardx_control/api/evidence.py:143-150 | the accepted events determine the chain |
| `Chain.GenuineChainVerifies` | control/guardx_control/api/evidence.py:214-250 | a genuine chain verifies when every timestamp string is what its instant renders to, and without collisions only then |
| `EvidenceStore.VerifyChain` | control/guardx_control/api/evidence.py:214-250 | the rows checked are the longest valid part from the start, and the first failing row and reason are reported |
| `EvidenceStore.Store.Verify` | control/guardx_control/api/evidence.py:214-250 | verification of a stored chain never raises and succeeds on all rows exactly under that timestamp condition |
| `EvidenceStore.Store.SignAnchor` | control/guardx_control/api/evidence.py:276-319 | no events, not advanced, or an anchor from the last anchored position to the head with the head's hash |
| `EvidenceStore.AnchorsTile` | control/guardx_control/api/evidence.py:292-300 | every position up to the last anchored one lies in exactly one anchor's window |
| `Chain.AnchoredPrefixIsGenuine` | control/guardx_control/api/evidence.py:214-250 | tamper evidence: a log that verifies up to an anchored position and carries the anchored hash equals the genuine rows in all 21 fields, or a digest collision is at hand |
| `EvidenceStore.Store.AnchorsPinTheLog` | control/guardx_control/api/evidence.py:276-319 | the same for every anchor the store has signed, however the store went on since |
| `Chain.UncoveredEditsPass` | control/guardx_control/evidence/chain.py:20-42 | verification cannot tell logs apart that differ outside the 21 fields and the hash |
| `Chain.ShadowFlagIsNotCovered` | control/guardx_control/api/evidence.py:169-169 | is_shadow can be flipped in any row of a verifying log |
| `Chain.SuffixIsReplaceable` | control/guardx_control/api/evidence.py:292-300 | rows after the last anchor can be replaced by others and every anchor still fits |
| `GoVerifier.GoVerify` | harness/verify_chain/main.go:68-87 | succeeds exactly on logs all of whose rows pass its three checks, and otherwise names the first that fails |
| `GoVerifier.HashesAgree` | harness/verify_chain/main.go:136-144 | its hash is the control plane's for events without the five characters, and without collisions only for those |
| `GoVerifier.VerifiersAgree` | harness/verify_chain/main.go:70-86 | on such logs both verifiers accept the same rows, except that Go takes an empty previous hash in the first row for a missing one |
| `GoVerifier.SpecialCharactersAreRejected` | harness/verify_chain/main.go:166-168 | a genuine row with one of the five characters is rejected by the Go verifier |
| `Inheritance.EmptyChild` | control/guardx_control/profiles/inheritance.py:124-151 | merging the empty layer in changes nothing |
| `Inheritance.EmptyParent` | control/guardx_control/profiles/inheritance.py:124-151 | merging onto the empty layer gives the child |
| `InheritanceIds.EmptyChildTrace` | control/guardx_control/profiles/inheritance.py:128-130 | with the empty child the trace is empty too |
| `InheritanceIds.EmptyParentTrace` | control/guardx_control/profiles/inheritance.py:131-134 | onto the empty parent every key of the child is recorded, so the trace is empty only for an empty child |
| `InheritanceIds.SelfMerge` | control/guardx_control/profiles/inheritance.py:105-189 | a layer with distinct keys and guard ids merged with itself is itself with an empty trace exactly when it carries no removal marker |
| `InheritanceIds.RepeatedIdsAreNotIdempotent` | control/guardx_control/profiles/inheritance.py:163-164 | an example of a layer with a repeated guard id that changes when merged with itself |
| `InheritanceNoChange.MergeChangesNothing` | control/guardx_control/profiles/inheritance.py:105-189 | a merge gives back the parent exactly when the child has no key, value or guard of its own, and then leaves an empty trace; ids may repeat |
| `InheritanceNoChange.SelfMergeIff` | control/guardx_control/profiles/inheritance.py:105-189 | a layer merged with itself is itself exactly when the last guard of each id is unmarked and says nothing that an earlier one of that id does not, and then leaves an empty trace |
| `InheritanceLaws.Associative` | control/guardx_control/profiles/inheritance.py:105-189 | three layers compose to one document in either order, key and guard order included, when the middle one can be merged wherever the outer two can and the later two carry no removal marker; repeated ids are allowed |
| `InheritanceAbsorbed.AbsorbedIff` | control/guardx_control/profiles/inheritance.py:105-189 | a merge gives back the child, key and guard order included, exactly when the parent's keys and guard ids are the first of the child's in order at every depth, and the child removes no guard |
| `InheritanceAbsorbed.MiddleIsImmaterialIff` | control/guardx_control/profiles/inheritance.py:135-150 | where only the outer two of three values are dicts the order of composition is immaterial exactly when the last absorbs the first in that sense |
| `InheritanceLaws.MarkersDoNotAssociate` | control/guardx_control/profiles/inheritance.py:170-174 | an example of a removal marker for which the order of composition matters |
| `InheritanceMarkers.MarkersAssociate` | control/guardx_control/profiles/inheritance.py:163-189 | with distinct ids in the later two lists both orders hold the same ids exactly when the third removes none of the first, and takes up none that the second removes without cancelling the marker |
| `InheritanceMarkers.MarkedGuardsAssociate` | control/guardx_control/profiles/inheritance.py:163-189 | with markers in any layer both orders give one list, guards and their order included, when the third removes none of the first and takes up none that the second removes, and guards that meet can be merged in all three |
| `InheritanceTrace.TraceIsComplete` | control/guardx_control/profiles/inheritance.py:124-189 | at every path neither at nor below a trace entry the merged document agrees with the parent, and equals it when nothing below is recorded |
| `InheritanceTrace.TraceIsSound` | control/guardx_control/profiles/inheritance.py:124-189 | every trace entry is a real difference of its kind at its path |
| `InheritanceTrace.NothingRecorded` | control/guardx_control/profiles/inheritance.py:124-151 | an empty trace means an unchanged document |
| `InheritanceIds.IdsOfMerged` | control/guardx_control/profiles/inheritance.py:167-189 | the guard ids are the parent's in order without the removed ones, then the child's new ones in order |
| `InheritanceIds.IdsStayDistinct` | control/guardx_control/profiles/inheritance.py:167-189 | distinct ids stay distinct |
| `InheritanceUnrecorded.UnrecordedOverride` | control/guardx_control/profiles/inheritance.py:141-150 | an override of anything but two dicts or two guard lists goes unrecorded although the value changes exactly when the two are equal in Python and somewhere have a bool against a number |
| `InheritanceUnrecorded.OneForTrueIsUnrecorded` | control/guardx_control/profiles/inheritance.py:141-150 | an example: true overridden by 1, and a list of it |
| `InheritanceLayers.MergedIsRegular` | control/guardx_control/profiles/inheritance.py:105-189 | distinct keys and guard ids stay distinct at every depth |
| `InheritanceLayers.ChildSupplies` | control/guardx_control/profiles/inheritance.py:131-189 | at and below a trace entry the merged document has exactly what the child says there, or nothing after a removal |
| `InheritanceLayers.LastEntryNamesTheSource` | control/guardx_control/profiles/inheritance.py:37-46 | over any number of layers the last entry at or above a path names the layer that supplied the value in the final document, the base when there is none; the two are equal when no later layer changed anything below |
| `InheritanceLayers.ReplacedIsTheSourceIff` | control/guardx_control/profiles/inheritance.py:42-46 | an entry's replaced names the layer composed just before, which is the one the old value came from exactly when it is the base or recorded a change there itself |
| `InheritanceLayers.ReplacedMayMissTheSource` | control/guardx_control/profiles/inheritance.py:42-46 | an example: a value of the base, a layer that says nothing, and one that overrides it |
| `PolicyCompiler.Compose` | control/guardx_control/profiles/inheritance.py:219-223 | the loop over the layers gives the composed document and the trace of those theorems, or fails exactly when some merge does |
| `PolicyCompiler.WrittenNames` | control/guardx_control/profiles/inheritance.py:42-46 | the names written in an entry are those of the layer and of the one composed before it |
| `WrittenPaths.HowStepsAreWritten` | control/guardx_control/profiles/inheritance.py:127-127 | a key is joined to the path by a dot, the id of a guard put between brackets |
| `WrittenPaths.HowOtherIdsAreWritten` | control/guardx_control/profiles/inheritance.py:173-173 | ids that are no strings are written as Python prints them |
| `WrittenPaths.RenderIsInjective` | control/guardx_control/profiles/inheritance.py:127-176 | paths whose keys and ids are not empty and free of dots and brackets are written alike only when they are one path |
| `WrittenPaths.OnePathOnePlace` | control/guardx_control/profiles/inheritance.py:37-46 | so two entries of a composed policy with one written path are changes at one place |
| `WrittenPaths.DottedKeysCollide` | control/guardx_control/profiles/inheritance.py:127-127 | without that two places can be written alike: an example |
| `PythonEquality.PyEqIsEquality` | control/guardx_control/profiles/inheritance.py:145-149 | the comparison that decides what is recorded is equality in Python: numbers and bools by value, lists in order, dicts by key |
| `PythonEquality.SameIdIsEquality` | control/guardx_control/profiles/inheritance.py:163-164 | two ids are one key of the index exactly when they are equal in Python |
| `PythonEquality.Falsy` | control/guardx_control/profiles/inheritance.py:172-172 | what counts as no removal marker: None, False, 0, 0.0 and what is empty |
| `InheritanceMerge.Merge` | control/guardx_control/profiles/inheritance.py:105-151 | the recursion returns the specified document and appends exactly the specified entries, or fails exactly when some guard is no dict or has an unhashable id |
| `InheritanceMerge.MergeGuards` | control/guardx_control/profiles/inheritance.py:154-189 | the same for guard lists |
| `InheritanceMerge.PathTests` | control/guardx_control/profiles/inheritance.py:127-136 | the suffix test on the dotted path is a test on the last key: any key ending in spec counts |
| `ProfileChain.ResolveChain` | control/guardx_control/profiles/inheritance.py:73-90 | the ancestors root first, each once, up to a pack without parent; or the repeated or missing pack |
| `ProfileChain.WalkRepeats` | control/guardx_control/profiles/inheritance.py:82-88 | a walk that meets a pack twice never ends, so reporting a cycle loses no chain |
| `Emitter.StepConserves` | gateway/internal/evidence/http_emitter.go:93-252 | every step of callers, flush worker and replay worker keeps: emitted plus repeated is accepted plus queued, in hand, batched, spooled and lost |
| `Emitter.StepStaysOrderly` | gateway/internal/evidence/http_emitter.go:93-252 | bounds of queue and batch, worker phases, and what holds while no Emit overlaps Close |
| `Emitter.RunConserves` | gateway/internal/evidence/http_emitter.go:93-252 | conservation over every interleaving |
| `Emitter.EventsAreSomewhere` | gateway/internal/evidence/http_emitter.go:93-252 | whatever failed posts meant, every emitted event is in some place and the server took it at most once; when a failure means not taken, it took only emitted events |
| `Emitter.ShutdownLosesNothing` | gateway/internal/evidence/http_emitter.go:82-89 | after a shutdown that overlaps no Emit only accepted and spooled events remain, and all of them |
| `Emitter.OverlappingEmitLosesTheEvent` | gateway/internal/evidence/http_emitter.go:136-138 | an Emit that overlaps Close can leave its event in the queue for good |
| `Emitter.RunOnlyOnce` | control/guardx_control/api/evidence.py:153-172 | on every run and whatever failures meant, the server takes at most one event of an id, once (event_id is the primary key, control/guardx_control/models/evidence.py:36) |
| `Emitter.FullBatchIsAcceptable` | gateway/internal/evidence/http_emitter.go:143-148 | a full batch of new, storable, distinct events is one the server takes |
| `Emitter.UnacceptableSpoolIsStuck` | gateway/internal/evidence/http_emitter.go:240-246 | a spool the server does not take as one batch (over 500 events, a stored or repeated id, an event it cannot store) is never taken, whatever happens: the spool only grows, and so does what the server holds |
| `Emitter.SpoolDrainsIff` | gateway/internal/evidence/http_emitter.go:240-251 | a waiting spool can be drained by some continuation exactly when the server would take it as one batch now; one good replay then empties it |
| `Emitter.LostReplyWedgesTheSpool` | gateway/internal/evidence/http_emitter.go:119-122 | after a post that the server applied although the sender saw a failure, on every run: the batch is still to be spooled, or the spool can never be drained |
| `Emitter.LostReplayWedgesTheSpool` | gateway/internal/evidence/http_emitter.go:240-246 | the same at once after a replay whose reply was lost |
| `Emitter.ALostReply` | gateway/internal/evidence/http_emitter.go:115-122 | a run from the start on which it happens |
| `EvidenceDelivery.SameAcceptance` | control/guardx_control/api/evidence.py:70-70 | the server that the emitter's model posts to takes a batch exactly when the store would |
| `EvidenceDelivery.Deliver` | control/guardx_control/api/evidence.py:115-177 | a batch ingested by the store is that server's step: the ids held grow by those of the batch exactly when it is taken |
| `EmitterWorkers.HTTPEmitter.Emit` | gateway/internal/evidence/http_emitter.go:93-107 | run without interference: one action, or two when the queue is full |
| `EmitterWorkers.HTTPEmitter.PostBatch` | gateway/internal/evidence/http_emitter.go:152-173 | true exactly when the reply says so; what the server holds grows by the batch exactly when it took it |
| `EmitterWorkers.HTTPEmitter.Drain` | gateway/internal/evidence/http_emitter.go:115-124 | posts the batch, or spools it on failure, and empties it |
| `EmitterWorkers.HTTPEmitter.FlushOnTick` | gateway/internal/evidence/http_emitter.go:141-142 | posts a batch that is not empty |
| `EmitterWorkers.HTTPEmitter.FlushOne` | gateway/internal/evidence/http_emitter.go:143-148 | takes one event and posts a full batch at once |
| `EmitterWorkers.HTTPEmitter.FlushOnStop` | gateway/internal/evidence/http_emitter.go:127-140 | drains the queue whatever the posts do, and leaves with queue and batch empty |
| `EmitterWorkers.HTTPEmitter.ReplayOnce` | gateway/internal/evidence/http_emitter.go:207-252 | posts the whole spool as one batch; truncates it when that succeeds and keeps it otherwise |
| `Registry.ApprovedIsJustified` | control/guardx_control/api/policies.py:219-247 | the last audited step of every approved version is an approval by the approver its row records, from in_review by an approver other than the author or by an admin, or by rule AA-1 |
| `Registry.RevokedIsTerminal` | control/guardx_control/api/policies.py:270-287 | nothing follows a revocation in the trail of a version, and it is created once |
| `Registry.StepStaysConsistent` | control/guardx_control/api/policies.py:186-196 | one row and one audit row keep table and trail consistent: replaying the trail gives every status |
| `Registry.PolicyRegistry.CreatePolicy` | control/guardx_control/api/policies.py:125-151 | the error cases in order, or a new draft and its audit row |
| `Registry.PolicyRegistry.InsertDraft` | control/guardx_control/api/policies.py:64-122 | the refusals in order, or a new draft whose document gives its policy and version and names no other tenant; that no stored version came from another document is part of the invariant every request keeps |
| `Registry.PolicyRegistry.Submit` | control/guardx_control/api/policies.py:200-216 | from draft to in_review only |
| `Registry.PolicyRegistry.Approve` | control/guardx_control/api/policies.py:220-247 | from in_review only, not by the author unless an admin |
| `Registry.PolicyRegistry.Reject` | control/guardx_control/api/policies.py:251-267 | from in_review back to draft |
| `Registry.PolicyRegistry.Revoke` | control/guardx_control/api/policies.py:271-287 | from approved or deprecated to revoked |
| `Registry.PolicyRegistry.SubmitProposal` | control/guardx_control/api/policies.py:303-357 | lands as a draft, and approved exactly for origin feed and class monotonic_add |
| `Registry.PolicyRegistry.CreateTenant` | control/guardx_control/api/policies.py:365-379 | admins only, each slug once |
| `Bundles.OneVersionPerPolicy` | control/guardx_control/bundle_builder/builder.py:21-46 | with distinct approval instants every policy with an approved version is represented by exactly one |
| `Bundles.BundleHolds` | control/guardx_control/bundle_builder/builder.py:21-83 | in are exactly the approved versions of the tenant that target the environment and that no approved version of the same policy was approved after |
| `Bundles.TiesAreBothIn` | control/guardx_control/bundle_builder/builder.py:34-45 | versions approved at the same latest instant are all in |
| `Bundles.RevokeRestores` | control/guardx_control/bundle_builder/builder.py:21-46 | approving a version displaces exactly the others of its policy, and revoking it restores the bundle there was |
| `Bundles.NarrowerVersionHidesThePolicy` | control/guardx_control/bundle_builder/builder.py:77-83 | the environment filter comes after the selection: a latest version that does not target it hides older ones that do |
| `Bundles.DetectorRefs` | control/guardx_control/bundle_builder/builder.py:49-66 | each detector reference once, strictly sorted, and exactly those the guards name |
| `Bundles.RefOfName` | control/guardx_control/bundle_builder/builder.py:54-56 | splitting a name at the first @ and joining again gives the name |
| `Distribution.StepStaysSound` | gateway/internal/bundle/poller.go:77-139 | every step of builds, polls, channel and consumer keeps the pipeline ordered and loses no newest manifest |
| `Distribution.InstalledInOrder` | gateway/internal/bundle/poller.go:90-99 | over every run installed bundle seqs strictly increase and the send into the emptied channel never blocks |
| `Distribution.AskedAndAnswered` | control/guardx_control/api/bundles.py:66-77 | a poll is answered with the last bundle when the gateway has an older one, with up to date when it has that one, and with nothing exactly while none was built |
| `Distribution.FailedPollIsInvisible` | gateway/internal/bundle/poller.go:78-82 | a poll that fails leaves no mark on a run: with it taken out the run is possible exactly when it was, and ends in the same state, whatever was built, received or installed while it was under way |
| `Distribution.QuietMeansNewest` | gateway/cmd/guardx-gateway/main.go:117-129 | when all is quiet and the gateway has the number of the last bundle built, the newest manifest was fetched and is in force exactly when an index can be built from it |
| `Distribution.OneGoodPollInstalls` | control/guardx_control/api/bundles.py:66-77 | from any quiet state with an older bundle than the last one built, however many builds behind, one good poll brings the newest into force |
| `Distribution.UnparsableIsNotRetried` | gateway/cmd/guardx-gateway/main.go:119-123 | a manifest no index can be built from is not tried again until the next build |
| `Poller.Client.PollOnce` | gateway/internal/bundle/poller.go:102-139 | nothing on an error or when up to date; otherwise the manifest, and the number moves to it |
| `Poller.Client.Tick` | gateway/internal/bundle/poller.go:77-100 | a failed or idle tick changes nothing; otherwise the channel holds the newest manifest, whatever it held |
| `PolicyIndex.Build` | gateway/internal/policy/index.go:65-122 | fails exactly on an unparsable document, and otherwise lists every policy under every pair it names, in manifest order |
| `PolicyIndex.ListedIffNamed` | gateway/internal/policy/index.go:110-119 | a policy is resolved for a pair exactly when the two lists of its document hold the application and the environment |
| `Luhn.Check` | detectors/pii/pii_detector/validators.py:5-17 | the loop from the right computes the specified checksum |
| `Luhn.SumByPlaces` | detectors/pii/pii_detector/validators.py:10-16 | every second digit from the last on counts as itself, the others as the digits of their double |
| `Luhn.DigitsOfText` | detectors/pii/pii_detector/validators.py:7-7 | what counts of a text are its ASCII digits, by value and in order |
| `Luhn.SubstitutionIsRejected` | detectors/pii/pii_detector/validators.py:10-17 | any single wrong digit is noticed, at any length |
| `Luhn.SwapIsRejected` | detectors/pii/pii_detector/validators.py:10-17 | a swap of neighbours goes unnoticed exactly for equal digits or 0 with 9 |
| `Luhn.OneCheckDigit` | detectors/pii/pii_detector/validators.py:5-17 | every prefix of at least twelve digits has exactly one check digit |
| `Luhn.AbaSubstitution` | detectors/pii/pii_detector/validators.py:20-30 | any single wrong digit of a routing number is noticed |
| `Luhn.AbaSwap` | detectors/pii/pii_detector/validators.py:20-30 | a swap of neighbours goes unnoticed exactly when they are equal or differ by five |
| `Luhn.AbaByPlaces` | detectors/pii/pii_detector/validators.py:25-29 | the weights by place are 3, 7 and 1, three times over |
| `Iban.Check` | detectors/pii/pii_detector/validators.py:33-47 | building the digit string and reducing it decides acceptance of the cleaned string |
| `Iban.WhatIsAccepted` | detectors/pii/pii_detector/validators.py:36-47 | at least fifteen capital letters and digits whose number, the first four characters moved to the end, leaves 1 modulo 97 |
| `Iban.ValuesInOrder` | detectors/pii/pii_detector/validators.py:40-43 | a digit is itself, A is 10 and each next letter one more |
| `Iban.CaseAndSpaceDoNotCount` | detectors/pii/pii_detector/validators.py:35-35 | neither blanks nor the case of letters count, and capital letters and digits are judged as they are |
| `Iban.SubstitutionIsRejected` | detectors/pii/pii_detector/validators.py:38-47 | any digit changed to another and any letter changed to another is noticed |
| `Iban.SwapIsRejected` | detectors/pii/pii_detector/validators.py:38-47 | a swap of neighbours within a part goes unnoticed exactly for equal characters or a digit and the letter worth eleven times as much (1B, 2M, 3X) |
| `Iban.OneCheckPair` | detectors/pii/pii_detector/validators.py:33-47 | for a country and an account part exactly one check pair in 02..98 is accepted |
| `Iban.ReplacementIsRejected` | detectors/pii/pii_detector/validators.py:38-47 | any replacement of equal width goes unnoticed exactly when the parts agree modulo 97 |
| `Wilson.IntervalIsScore` | automation/guardx_automation/autotuner/tuner.py:33-41 | the interval contains k/n, both ends w solve (w - k/n)^2 = 3.8416/n * w * (1 - w), and the cuts to [0, 1] change nothing |
| `Autotuner.Rates` | automation/guardx_automation/autotuner/tuner.py:133-147 | the loop counts the four outcomes |
| `Autotuner.CountsSamples` | automation/guardx_automation/autotuner/tuner.py:133-147 | each count is the number of samples of the label that score at least the threshold, or less |
| `Autotuner.RatesAreShares` | automation/guardx_automation/autotuner/tuner.py:149-153 | the rates are the share of the negatives that fire and of the positives that do not, and 0 without any |
| `Autotuner.SearchThreshold` | automation/guardx_automation/autotuner/tuner.py:117-191 | recommends the first grid point with the least false-positive rate among those that pass, which raises the threshold by at least 0.005, or nothing for too few samples, no passing point or too small a move |
| `Autotuner.PointsInRange` | automation/guardx_automation/autotuner/tuner.py:160-165 | the grid has 41 points, one, or none |
| `Autotuner.GridEnds` | automation/guardx_automation/autotuner/tuner.py:160-165 | 40 equal steps from 0.20 below the threshold to 0.15 above it, within 0.05 and 0.99 |
| `Autotuner.RoundingIsSmall` | automation/guardx_automation/autotuner/tuner.py:175-175 | rounding is to the nearest thousandth |
| `Autotuner.RatesAreMonotone` | automation/guardx_automation/autotuner/tuner.py:133-153 | as the threshold rises false positives do not rise and false negatives do not fall |
| `Autotuner.RecommendationRaises` | automation/guardx_automation/autotuner/tuner.py:172-175 | a lower false-positive rate is only found at a higher threshold, after rounding too |
| `Autotuner.IntervalTestSuffices` | automation/guardx_automation/autotuner/tuner.py:172-172 | the test on the interval implies the test on the rate, which is therefore redundant in exact arithmetic |
| `Autotuner.RoundedCounts` | automation/guardx_automation/autotuner/tuner.py:175-178 | the counts reported hold at the rounded threshold exactly when no sample of the label lies between |
| `Autotuner.RoundingCanBreakTheCeiling` | automation/guardx_automation/autotuner/tuner.py:175-175 | samples for which the threshold put forward misses one positive in ten, against a ceiling of 0.005 |

## Left out

- HTTP handlers, authentication, the proxy, the console, deployment and demos: input, output and user interface.
- Ed25519, SHA-256, tokens, regular-expression engines, YAML, JSON Schema, SQL: uninterpreted or atomic steps.
- Printing of floats that are not integers: an opaque token; the two languages may format one differently. Integers beyond 10^15 are left out of the cross-language statements.
- Not-a-number and infinite values in profile documents: the merge takes them as equal to themselves, which Python does not.
- Non-ASCII digits, letters whose upper case is ASCII, and non-ASCII white space in checksums.
- Emitter: whether the server can store an event is a flag of the event, and an event's id is all the server compares; interleavings are those of the state machine's steps; the methods over one object are proved for runs without interference. Disk errors, over-long or torn spool lines and a crash between a replayed post and the truncation are not modelled, nor is when a replay happens.
- Distribution: likewise; a gateway restart, two builds racing for one number, and an envelope whose number differs from its manifest's are not modelled.
- EvidenceStore.Store.Ingest: the constraints that abort the transaction are tested before the loop instead of where the database finds them, since either way nothing is stored; column widths, time zones of naive timestamps and the chain_head part of the response are left out.
- EvidenceStore.Store.SignAnchor: the signature and the anchor's own timestamp are left out; anchors are taken as authentic.
- EvidenceStore.VerifyChain: rows come in sequence order, as the query and the Go sort deliver them; the Go verifier reads at most 5000 events from the API, which is left out.
- GoWriter.WriteCanonical: the integer types and json.Number, which JSON decoding does not produce, are left out.
- GoWriter.LanguagesAgree: stated for numbers within 10^15 and for tokens printed alike.
- Scanner.PrefilterIsLossless: candidates are compared as a multiset; byte against code-point offsets are abstract offsets into one sequence.
- Spans: confidence boosts from context words and the entropy formula are left out; candidates arrive with their confidence.
- InheritanceMerge.Merge: layers are JSON documents with distinct keys; YAML dates and tuples are left out, and so is what was appended to the trace before an error.
- PolicyCompiler.Compose: the finishing touches of compile_policy (kind, tenant, status, dropping the parent) and its choice of layers, skipping a baseline already added: easy members.
- InheritanceMarkers.MarkersAssociate: which ids both orders hold; where they hold the same ids although a marker was cancelled, the guards themselves are not compared (InheritanceMarkers.MarkedGuardsAssociate does where none is).
- SpanTies.DeterminedIff: for non-empty spans.
- WrittenPaths.RenderIsInjective: for ids that are strings; the string "1" and the number 1 are written alike.
- GoReading.GoTextIsReadable: the reader undoes what Go writes; it is not the reader of the gateway.
- Redaction.CoveredIffSafe: for non-empty spans; an empty one asks for no byte.
- ProfileChain.ResolveChain: a name without "@" counts as a missing pack.
- Registry: whether document_hash still fits after metadata is written into the document; documents themselves; created_at; deprecation, which no request performs.
- Bundles: image digests, manifest layout and the order of rows, which the query leaves open.
- PolicyIndex.Build: the decoding of guards, fail mode and timeout into their runtime shape.
- Autotuner.SearchThreshold: over the reals, so the drift of adding a float step is left out; rounding takes halves up; joining feedback to events and bumping the version are left out.
- The circuit breaker, dispatcher, metrics, linter, role mapping, feed ingestor, synthesizer, judge backends and configuration: easy members or no decidable contract.
