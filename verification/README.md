# Verified model of JTCP and of the doctest header it ships

JTCP is a small TCP server library over epoll. Its repository carries a copy of `doctest.h`,
which runs its tests. This project models the two places where a bug would be hard to find by
testing, and proves what they are for.

**The server.** One thread runs the epoll loop; any number of user threads may call `readData` on
the peers they hold. `ServerModel` is a state machine whose steps are the atomic accesses of the
code: one `epoll_ctl`, one critical section under `m_client_mgr_mutex`, one access to
`m_run_flag`, the call of a callback and its return. Its state is the kernel (open descriptors,
interest set), the registry `m_client_mgr`, the shared pointers that keep each peer alive, a
call stack and a program counter for each thread, and the progress of start and stop.
`ServerInvariant`, `ServerSteps`, `ServerPeerSteps` and `ServerRemoval` give an inductive invariant
and its preservation by every step; `ServerTheorems` and `ServerBatches` state what follows for
every run. `ServerCallbacks`, `ServerHistory` and `ServerDispatch` read the same off the run itself: which
callback starts at which step and how often, which descriptors go from open to closed, which
events of a batch are taken up and in what order. `ServerScenarios` builds two complete runs that show the limits: a lookup that misses, and
one that finds another peer under the reused descriptor. The assumptions about the kernel and
about user code stand at the head of `ServerModel.dfy`.

**The test runner.**

- `SubcaseHash`, `SubcaseHashLaws`, `SubcaseTree`, `SubcaseEngine`, `SubcaseTheorems`: the engine that re-runs a test
  body until every leaf of its subcases has run. The engine is a class with the fields of the
  context state; the tree it discovers is its input. Runs are proved equal to an exploration that
  prunes by hash, and that to the list of leaves exactly when no two hashes clash on the way. The
  hashes are polynomials modulo 2^64, which tells when they differ: rows of leaves that differ in
  a line or in one character, at the bottom of any nest, are always run completely. The hash keeps
  only thirteen levels, and an ordinary test shape is given on which the engine misses a leaf.
- `Wildcard`, `WildcardLaws`, `WildcardOverrun`, `WildcardMatcher`: the glob matcher with one
  backtracking point, against the declarative glob relation and against cutting the text into
  pieces, letter case included, and the exact inputs on which one of its pointers leaves the text.
- `SmallString`, `StringGrowth`, `StringArena`: the 24-byte string over an explicit free store. The
  union is modelled with its overlap: writing one layout leaves the other undefined. Whole programs
  of string operations keep contents right and every block with one owner. The cost of growth
  is bounded, exactly as far as the 32-bit capacity allows.
- `XmlEncode`, `XmlDecode`, `XmlEscapes`, `Utf8`: the XML encoder, what comes back when its entities
  are decoded, what its hex escapes denote, and which text it leaves alone.
- `XmlChars`, `XmlLines`, `XmlReader`: a reader that accepts no more than XML 1.0 does. The file must be
  UTF-8 and hold only the characters of section 2.2; line ends and white space in attributes are
  normalised (sections 2.11 and 3.3.3); `]]>` in text, an attribute given twice, an unknown entity,
  tags that do not match or a second root make it refuse. The encoder lets through a few things
  such a reader refuses or alters; for each there is the exact condition and an input.
- `XmlOutput`, `XmlDocument`, `XmlReport`, `XmlRun`: the XML writer, the document a test run prescribes,
  and the reporter. For every run nothing is left open, the reader accepts the report exactly if every
  text and value of the run is fit for it, and then it gets the prescribed document.
- `XmlContents`, `XmlRows`, `XmlCounts`: what that document says, row by row and with the names as they
  stand in the file, and as many failed and passed expressions in it as the run had.
- `Tokenizer`: comma separated lists with escapes, and the round trip.
- `MultiLane`, `MultiLaneSigns`: the counter spread over lanes, alone and with loads overlapping other
  steps, and for which changes the value of such a load can be trusted.

`Common` holds what several modules need.

`dafny verify dfyconfig.toml` checks the project.

Where documentation and code differ, the model follows the code: the comment at
`ut/include/doctest.h:5188` refers to the XML rule about `]]>`, but the guard is `idx > 2`, so the
mark passes at the very start of a text (`XmlDecode.CdataEndOnlyAtStart`); the comment at line 4253
of the same file says a subcase is recorded once all its children are finished, but the hash
inserted there is that of the whole stack, not of the subcase being left, so only leaves are ever
recorded; `setFileDiscribeBlock` builds a success result for a failing `F_GETFL` and goes on.

## Model

| member | source | states |
|---|---|---|
| SubcaseHash.HashString | ut/include/doctest.h:4165-4173 | the loop computes the djb2 fold in 64 bits with wrap-around |
| SubcaseHash.HashSignature | ut/include/doctest.h:4175-4177 | file, name and line are mixed in this order |
| SubcaseHash.HashPrefix | ut/include/doctest.h:4179-4194 | the loop over the first `count` entries is the fold over that prefix |
| SubcaseHash.HashExtends | ut/include/doctest.h:4226-4227 | hashing a prefix and then a signature, as the constructor does, equals hashing the extended stack, as the destructor does |
| SubcaseHash.DifferenceShifts | ut/include/doctest.h:4160-4163 | two paths with a common ending of n subcases have hashes whose difference is a multiple of 32^n modulo 2^64 |
| SubcaseHash.HashForgets | ut/include/doctest.h:4160-4194 | the hash of a path depends on its last thirteen subcases only |
| SubcaseHashLaws.StringHashIsPolynomial | ut/include/doctest.h:4165-4173 | the string hash is 5381 * 33^n plus the characters as digits to the base 33, modulo 2^64 |
| SubcaseHashLaws.OneCharacterTells | ut/include/doctest.h:4165-4173 | strings that differ in exactly one place hash differently, because 33 is odd |
| SubcaseHashLaws.SignatureHashIsWeight | ut/include/doctest.h:4175-4177 | the file counts 1024 times, the name 32 times, the line once |
| SubcaseHashLaws.PathHashIsPolynomial | ut/include/doctest.h:4179-4194 | the path hash has the signatures as digits to the base 32, modulo 2^64 |
| SubcaseHashLaws.SignaturesHashApart | ut/include/doctest.h:4175-4177 | signatures that differ in the line alone, or in one character of name or file, have different hashes |
| SubcaseHashLaws.SiblingsHashApart | ut/include/doctest.h:4160-4163 | under one path two subcases have one hash if and only if their signatures have |
| SubcaseTree.ExploreFaithful | ut/include/doctest.h:4226-4255 | exploring with hashes visits all leaves and records exactly theirs unless something hits an earlier record, and then strictly fewer |
| SubcaseTree.ExploresAllLeaves | ut/include/doctest.h:4226-4255 | the exploration is the list of all leaves in order if and only if no offered subcase hashes to the word of a leaf before it |
| SubcaseTree.LeavesOnce | ut/include/doctest.h:6988-7031 | with distinct sibling signatures no leaf path is listed twice |
| SubcaseTree.LeavesComplete | ut/include/doctest.h:6988-7031 | a path is listed if and only if it leads to a subcase without subcases |
| SubcaseEngine.ResumeAtFresh | ut/include/doctest.h:4226-4235 | sending a run to the first subcase not yet recorded resumes the exploration exactly there |
| SubcaseEngine.RunPeelsLeaf | ut/include/doctest.h:4207-4256 | a run reaches one leaf, and the path it puts aside stands for the whole remaining exploration |
| SubcaseEngine.RunFromTop | ut/include/doctest.h:6988-7031 | leaves already run and leaves remaining together stay the same over a run |
| SubcaseEngine.Engine.constructor | ut/include/doctest.h:6980-6993 | a new test case starts with no path put aside |
| SubcaseEngine.Engine.Construct | ut/include/doctest.h:4207-4237 | the stack, depth, next path and decision to enter after the constructor; the stack index it reads is in bounds |
| SubcaseEngine.Engine.Destroy | ut/include/doctest.h:4243-4256 | depth, leaf flag, recorded hashes and next path after the destructor of an entered subcase |
| SubcaseEngine.Engine.RunBody | ut/include/doctest.h:4207-4256 | running any body below any entered path reaches the leaf its target leads to, records its hash only, and puts aside the deepest fresh subcase after it |
| SubcaseEngine.Engine.RunOnce | ut/include/doctest.h:6988-7009 | one pass of the loop from freshly reset fields |
| SubcaseEngine.Engine.RunTest | ut/include/doctest.h:6980-7031 | the loop terminates and its runs reach the leaves of the exploration, in order |
| SubcaseTheorems.RunTestCase | ut/include/doctest.h:6980-7031 | every leaf runs exactly once, in program order, if and only if no hash clash occurs; otherwise leaves are missed; nests over rows of leaves that are easily told apart run completely |
| SubcaseTheorems.RowClashes | ut/include/doctest.h:4226-4255 | among subcases without subcases of their own, under any path, something clashes if and only if two signatures have one hash |
| SubcaseTheorems.RowsDoNotClash | ut/include/doctest.h:4226-4255 | nothing clashes in a row of leaves, at the bottom of any nest, in which any two differ in the line alone or in one character |
| SubcaseTheorems.SharedHelperMissesLeaf | ut/include/doctest.h:4188-4194 | two subcases sharing a helper that nests twelve more above two leaves always lose a leaf |
| Wildcard.AlignedConsumes | ut/include/doctest.h:4133-4136 | matching a starless stretch character by character leaves the match of the rest to decide |
| Wildcard.LatestStarSuffices | ut/include/doctest.h:4127-4132 | once a stretch has been placed leftmost, the earlier star can be forgotten |
| Wildcard.MismatchMovesOn | ut/include/doctest.h:4137-4140 | a mismatch rules out the placement and nothing else |
| Wildcard.TextExhausted | ut/include/doctest.h:4143-4146 | at the end of the text only the current placement counts |
| WildcardLaws.MatchIsTiling | ut/include/doctest.h:4113-4147 | a text matches if and only if it can be cut into one piece for each pattern character: any piece for a star, one character for a question mark, otherwise that character, or without case its other form |
| WildcardLaws.CaseRelaxes | ut/include/doctest.h:4117-4121 | what matches with the case counted matches without |
| WildcardLaws.LiteralIsEquality | ut/include/doctest.h:4117-4121 | a pattern without wildcards, the case counted, matches the text equal to it and no other |
| WildcardLaws.LiteralIgnoringCase | ut/include/doctest.h:4117-4121 | without, the texts of its length whose characters are equal or one ASCII letter in both cases |
| WildcardOverrun.MatchesSplits | ut/include/doctest.h:4113-4147 | a match can be cut at any pattern position into a match of the front and one of the back |
| WildcardOverrun.CoversIsMatches | ut/include/doctest.h:4113-4147 | the relation built from the right equals the glob relation built from the left |
| WildcardOverrun.NextStarTraced | ut/include/doctest.h:4127-4132 | the search reaches each star at the earliest text position the pattern before it allows |
| WildcardOverrun.EndOfSearch | ut/include/doctest.h:4137-4143 | when the text is used up, the retry pointer is past the terminator exactly on the inputs characterised by `Overruns` |
| WildcardOverrun.ForeignAfterStar | ut/include/doctest.h:4137-4140 | a leading star before a character that does not occur in the text is such an input |
| WildcardMatcher.Wildcmp | ut/include/doctest.h:4113-4147 | terminates; true if and only if the glob relation holds, and if and only if the text can be cut to the pattern; no pointer but `cp` leaves its string, and `cp` exceeds the terminator if and only if `Overruns` holds |
| WildcardMatcher.Search | ut/include/doctest.h:4126-4146 | the same from the first star on |
| WildcardMatcher.OnlyStars | ut/include/doctest.h:4143-4146 | at the end of the text the rest of the pattern matches if and only if it is stars |
| WildcardMatcher.MatchesAny | ut/include/doctest.h:4149-4158 | empty filters decide by the flag, otherwise one matching filter is needed and enough |
| SmallString.String.Allocate | ut/include/doctest.h:3598-3611 | short sizes get the buffer with its flag byte, long ones a fresh block, each with a terminator |
| SmallString.String.CopyFrom | ut/include/doctest.h:3620-3626 | the copy has the contents and a block of its own |
| SmallString.String.Length | ut/include/doctest.h:3740-3745 | `size()` is the number of characters in both layouts |
| SmallString.String.CStr | ut/include/doctest.h:641-648 | the pointer shows the characters and a terminator behind them |
| SmallString.String.constructor | ut/include/doctest.h:3628-3631 | empty, in place |
| SmallString.String.FromBytes | ut/include/doctest.h:3641-3643 | the given characters; one new block at most |
| SmallString.String.Copy | ut/include/doctest.h:3649 | equal contents, separate block |
| SmallString.String.Move | ut/include/doctest.h:3712-3716 | contents and block change hands, the source is empty and owns nothing |
| SmallString.String.Destroy | ut/include/doctest.h:3633-3636 | gives back exactly the block the string owns |
| SmallString.String.Assign | ut/include/doctest.h:3651-3660 | the old block goes, contents are copied; self-assignment changes nothing |
| SmallString.String.MoveAssign | ut/include/doctest.h:3718-3727 | the old block goes, contents and block are taken over; self-assignment changes nothing |
| SmallString.String.AppendOnStack | ut/include/doctest.h:3667-3671 | concatenation that stays in place |
| SmallString.String.MoveToHeap | ut/include/doctest.h:3672-3684 | concatenation that leaves the buffer; the characters are saved before the union is overwritten |
| SmallString.String.AppendOnHeap | ut/include/doctest.h:3686-3689 | concatenation into the spare room of the block |
| SmallString.String.Regrow | ut/include/doctest.h:3690-3706 | concatenation into a new block; the old one is given back |
| SmallString.String.Append | ut/include/doctest.h:3662-3710 | the contents are concatenated on every branch, at most one block is exchanged, and size, capacity and recopied bytes follow `Grown` |
| StringGrowth.GrowthCovered | ut/include/doctest.h:3686-3706 | potential argument: what was recopied is covered by the present capacity |
| StringGrowth.GrowthPastHalfTheWord | ut/include/doctest.h:3692-3694 | a concrete sequence of appends beyond 2^31 characters that breaks the bound, because the doubled capacity wraps to 0 |
| StringGrowth.GrowthIsLinear | ut/include/doctest.h:3662-3710 | every sequence of appends up to length n recopies at most twice the final length plus 23 bytes if and only if n is at most 2^31 |
| StringArena.MovedPartition | ut/include/doctest.h:3712-3716 | moving a block to a new string keeps one owner for each block |
| StringArena.PartitionMove | ut/include/doctest.h:3718-3727 | so does moving it over another string's block, which goes |
| StringArena.Execute | ut/include/doctest.h:3598-3727 | after any legal sequence of constructions, copies, moves, assignments, appends and destructions all texts are right, live blocks and owned blocks coincide with one owner each, and nothing is left once all strings are gone |
| StringArena.Outcome | ut/include/doctest.h:641-648 | the characters read through the pointers after any such sequence are the texts the operations describe |
| XmlEncode.MasksAreRanges | ut/include/doctest.h:5136-5160 | the bit masks of the source select the byte ranges used in the model |
| XmlEncode.CollectGroup | ut/include/doctest.h:5239-5245 | the inner loop tells whether all trailing bytes are continuations and collects the value |
| XmlEncode.EncodeDefault | ut/include/doctest.h:5202-5266 | the default branch with all its rejections |
| XmlEncode.EncodeChar | ut/include/doctest.h:5181-5267 | one round of the switch |
| XmlEncode.EncodeTo | ut/include/doctest.h:5177-5270 | the whole loop writes the encoding of the text |
| XmlDecode.UnescapePiece | ut/include/doctest.h:5183-5200 | whatever follows, one written piece decodes to what it stands for |
| XmlDecode.CutKeeps | ut/include/doctest.h:5202-5266 | a round keeps or rewrites its bytes exactly as the bytewise rule says |
| XmlDecode.DecodesToScrubbed | ut/include/doctest.h:5162-5270 | decoding the entities gives the input with exactly the rejected bytes as hex escapes, in both modes |
| XmlDecode.OutputIsClean | ut/include/doctest.h:5177-5200 | no raw `<`, every `&` begins an entity, no raw quotation mark in attributes (section 2.4 of XML 1.0) |
| XmlDecode.CdataEndOnlyAtStart | ut/include/doctest.h:5187-5193 | the output contains the mark `]]>` if and only if the text begins with it |
| XmlEscapes.HexEscapeDenotes | ut/include/doctest.h:5162-5168 | a hex escape is `\x` and two upper-case digits, the high one first, with the value of the byte |
| XmlEscapes.EveryTextComesBack | ut/include/doctest.h:5177-5270 | with entities and hex escapes decoded any bytes come back, in both modes, if and only if they hold no such escape themselves |
| XmlEscapes.EntitiesByName | ut/include/doctest.h:5183-5200 | the entities as they are written |
| XmlEscapes.CdataEndIsBroken | ut/include/doctest.h:5187-5193 | from the third place on the end of a CDATA section is written with `&gt;` |
| XmlEscapes.ControlsAreSpelled | ut/include/doctest.h:5207-5211 | the control characters by number; 1 is written `\x01` |
| Utf8.GroupIsUtf8 | ut/include/doctest.h:5230-5258 | every group passed on is the UTF-8 form (section 3 of RFC 3629) of a value from 0x80 to 0x10FFFF, or 0x800 in four bytes |
| Utf8.Utf8IsGroup | ut/include/doctest.h:5222-5258 | the UTF-8 form of every code point above ASCII is accepted |
| Utf8.OverlongIsGroup | ut/include/doctest.h:5253 | so is 0x800 in four bytes, because the comparison is strict |
| Utf8.UnchangedIffUnits | ut/include/doctest.h:5177-5270 | a text comes back unchanged if and only if it is a row of such units without control characters |
| Utf8.TextSurvives | ut/include/doctest.h:5177-5270 | round trip for every text of code points without control characters |
| XmlChars.LegalIffPrintable | ut/include/doctest.h:5202-5266 | what the encoder writes consists of XML characters in UTF-8, whatever stands behind it, if and only if the text holds no vertical tab, no form feed and no illegal group |
| XmlChars.IllegalGroups | ut/include/doctest.h:5245-5258 | the groups the encoder passes on and XML forbids are those of the surrogates, of U+FFFE and U+FFFF, and 0x800 in four bytes |
| XmlChars.VerticalTabPasses | ut/include/doctest.h:5207-5211 | the byte 0x0B is written as it is, and no reader takes the result |
| XmlChars.SurrogateAndOverlongPass | ut/include/doctest.h:5245-5258 | so are the first surrogate and the overlong group |
| XmlLines.AttributeComesBack | ut/include/doctest.h:5195-5200 | an attribute is read as its scrubbed text with breaks turned into spaces, and as the scrubbed text itself if and only if it holds no tab, line feed or carriage return |
| XmlLines.TextComesBack | ut/include/doctest.h:5177-5270 | a text is read as its scrubbed text with line ends turned into line feeds, and as the scrubbed text itself if and only if it holds no carriage return |
| XmlLines.TabBecomesSpace | ut/include/doctest.h:5207-5211 | a tab in an attribute is read as a space |
| XmlLines.ReturnBecomesLineFeed | ut/include/doctest.h:5207-5211 | a carriage return in a text is read as a line feed |
| XmlReader.LeadingCdataEndIsRefused | ut/include/doctest.h:5187-5193 | an element whose text begins with `]]>` is written so that a reader refuses the file |
| XmlReader.UnescapeWhite | ut/include/doctest.h:5402-5407 | line ends and indentation behind a text do not change how it decodes |
| XmlReader.RunAttribute | ut/include/doctest.h:5345-5349 | a reader in a start tag takes a written attribute with its value normalised and decoded, and refuses the file if the tag has one of that name |
| XmlReader.RunStartTag | ut/include/doctest.h:5317 | a reader outside tags takes a written start tag |
| XmlReader.RunEndTag | ut/include/doctest.h:5337-5339 | a reader takes a written end tag if it names the innermost unclosed element |
| XmlReader.RunEmptyTag | ut/include/doctest.h:5333-5335 | a reader takes `/>` as start and end |
| XmlOutput.XmlWriter.constructor | ut/include/doctest.h:5304-5307 | nothing written, nothing open |
| XmlOutput.XmlWriter.StartElement | ut/include/doctest.h:5314-5322 | one more unclosed element, its start tag open; the unclosed elements a reader sees equal `m_tags` and the indentation is twice their number |
| XmlOutput.XmlWriter.EndElement | ut/include/doctest.h:5330-5343 | the innermost element is closed for a reader as well |
| XmlOutput.XmlWriter.WriteAttribute | ut/include/doctest.h:5345-5355 | in an open start tag a reader gets the name and the scrubbed value with breaks as spaces; the file is refused if the value is not printable or the name is taken; empty ones are left out; elsewhere it is text |
| XmlOutput.XmlWriter.WriteText | ut/include/doctest.h:5362-5372 | behind a start tag a reader gets the scrubbed text with line ends normalised, up to white space around it; elsewhere it joins the text before; never markup; the file is refused exactly if the text is not printable or makes `]]>` appear |
| XmlOutput.XmlWriter.EnsureTagClosed | ut/include/doctest.h:5391-5396 | nothing changes for a reader but that the start tag is over |
| XmlOutput.XmlWriter.NewlineIfNecessary | ut/include/doctest.h:5402-5407 | nothing changes for a reader |
| XmlOutput.XmlWriter.WriteDeclaration | ut/include/doctest.h:5398-5400 | the XML declaration leaves no trace in the document, and is out of place anywhere but at the very start |
| XmlOutput.XmlWriter.Destroy | ut/include/doctest.h:5309-5312 | closes all that is open, innermost first |
| XmlReport.XmlReporter.Begin | ut/include/doctest.h:5460-5466 | an element with its non-empty attributes |
| XmlReport.XmlReporter.Scoped | ut/include/doctest.h:5324-5328 | a scoped element with attributes and text is complete when the statement ends |
| XmlReport.XmlReporter.LogContexts | ut/include/doctest.h:5428-5439 | one `Info` element for each active context |
| XmlReport.XmlReporter.ChangeSuite | ut/include/doctest.h:5443-5458 | the suite before is left and the next one entered exactly if there was none or its name differs |
| XmlReport.XmlReporter.TestCaseStartImpl | ut/include/doctest.h:5443-5473 | suites are closed and opened where the suite name changes |
| XmlReport.XmlReporter.TestRunStart | ut/include/doctest.h:5511-5536 | the root with its options |
| XmlReport.XmlReporter.TestRunEnd | ut/include/doctest.h:5538-5555 | the last suite if there was a case, the totals, and nothing left open |
| XmlReport.XmlReporter.TestCaseStart | ut/include/doctest.h:5557-5560 | inside root, suite and case, with the start tag closed |
| XmlReport.XmlReporter.TestCaseEnd | ut/include/doctest.h:5564-5577 | the results and the end of the case |
| XmlReport.XmlReporter.TestCaseException | ut/include/doctest.h:5579-5585 | one element, nothing left open |
| XmlReport.XmlReporter.SubcaseStart | ut/include/doctest.h:5587-5593 | one more unclosed element |
| XmlReport.XmlReporter.SubcaseEnd | ut/include/doctest.h:5595 | the innermost element is closed |
| XmlReport.XmlReporter.LogAssert | ut/include/doctest.h:5597-5624 | a complete `Expression`, or nothing for a passed assert that is not to be shown |
| XmlReport.XmlReporter.LogMessage | ut/include/doctest.h:5626-5639 | a complete `Message` |
| XmlReport.XmlReporter.TestCaseSkipped | ut/include/doctest.h:5641-5647 | a complete marked case, or nothing at all, the suite included |
| XmlReport.XmlReporter.RunItems | ut/include/doctest.h:5579-5639 | any nesting of subcases, asserts, messages and exceptions gives the same nesting of elements |
| XmlDocument.BaseName | ut/include/doctest.h:3884-3897 | a shortened file name is what stands behind the last separator of either kind |
| XmlDocument.RestIsSuites | ut/include/doctest.h:5443-5458 | opening and closing suites case by case gives one element for each longest row of cases of one suite |
| XmlDocument.DocumentHasOneRoot | ut/include/doctest.h:5511-5555 | what a reader sees of the document is one element around everything else |
| XmlRows.DocumentGivesReport | ut/include/doctest.h:5420-5648 | for every run the elements a reader sees are, in order, those due: each assert, message, exception, subcase, case and suite with the elements around it, its attributes by name and value, and its text |
| XmlCounts.ReportCounts | ut/include/doctest.h:5597-5607 | as many expressions say `success="false"` as asserts failed in the run; as many say `success="true"` as passed if these are to be shown, none otherwise |
| XmlCounts.NumberIsRead | ut/include/doctest.h:5097-5102 | a number in an attribute is read back as that number, without zeros in front |
| XmlRun.ReportRun | ut/include/doctest.h:5420-5648 | for every run nothing is left open; a reader accepts the report if and only if every value and text of the run is printable and no text begins with `]]>`, and then gets exactly the prescribed document, its rows and its counts |
| Tokenizer.Tokenize | ut/include/doctest.h:6507-6542 | the loop appends the tokens of the recursive splitter to the entries of `res` |
| Tokenizer.ParseCommaSepArgs | ut/include/doctest.h:6503-6546 | earlier entries of `res` stay, and without the option nothing changes |
| Tokenizer.CommaEndsEntry | ut/include/doctest.h:6533-6537 | a list without commas and backslashes is one entry; a comma behind such a text ends the entry |
| Tokenizer.BackslashKeeps | ut/include/doctest.h:6523-6532 | a backslash makes a comma or backslash an ordinary character; before any other, and at the end, it is one itself |
| Tokenizer.RoundTrip | ut/include/doctest.h:6507-6542 | escaping and joining is undone exactly for the lists without empty entries; of others the empty entries are lost |
| MultiLane.MultiLaneAtomic.FetchAdd | ut/include/doctest.h:3456-3458 | one lane changes, the total grows by the argument, the old value of the lane is returned |
| MultiLane.MultiLaneAtomic.FetchSub | ut/include/doctest.h:3460-3462 | the same for subtraction |
| MultiLane.MultiLaneAtomic.Load | ut/include/doctest.h:3466-3472 | without concurrent steps the total |
| MultiLane.MultiLaneAtomic.Store | ut/include/doctest.h:3479-3485 | the first lane takes the value, the others 0 |
| MultiLane.Count | ut/include/doctest.h:3466-3506 | after a store and any adds by any threads a load returns the value and all that was added |
| MultiLane.LoadIsExact | ut/include/doctest.h:3466-3472 | a load overlapping any steps returns the total at its beginning and the changes to lanes it had not read; it differs from the total at its end by the changes behind its back |
| MultiLane.LoadIsBetween | ut/include/doctest.h:3466-3472 | among increments the result lies between the totals at beginning and end |
| MultiLane.MovingIsMissed | ut/include/doctest.h:3466-3485 | without that restriction it need not: a concrete run returns 0 while the total is 1 throughout |
| MultiLaneSigns.OneWayIsTrustworthy | ut/include/doctest.h:3466-3472 | if nothing is added, or nothing subtracted, the result lies between the totals at beginning and end |
| MultiLaneSigns.BothWaysMislead | ut/include/doctest.h:3466-3472 | if something is added and something subtracted, some interleaving of exactly these changes gives a result outside |
| MultiLaneSigns.TrustworthyIffOneWay | ut/include/doctest.h:3466-3472 | every interleaving of given changes keeps the result between the totals if and only if they do not include both a rise and a fall |
| ServerRemoval.StepKeeps | src/server/server.cpp:10-206 | every step of every thread keeps the invariant |
| ServerRemoval.RunKeeps | src/server/server.cpp:10-206 | so it holds in every reachable state |
| ServerRemoval.InsertIsFresh | src/server/server.cpp:157-160 | the insert never meets an existing entry |
| ServerRemoval.DeleteIsFirst | src/server/server.cpp:183-187 | of concurrent or repeated removals of a peer only one gets past `EPOLL_CTL_DEL` |
| ServerRemoval.EraseFindsPeer | src/server/server.cpp:188-202 | that one finds the peer it set out to remove, not a later one with the same descriptor |
| ServerInvariant.ReapKeeps | include/JTCP/common/file_describe.h:23-31 | closing descriptors whose last reference is gone keeps all parts of the invariant and leaks none |
| ServerTheorems.RegistryAgreesWithEpoll | src/server/server.cpp:132-164 | until the final clear registry keys and interest set differ by the descriptor between add and insert and those between delete and erase, and by no others |
| ServerTheorems.RegistryKeysAreOwn | src/server/server.cpp:157-160 | every key is the open descriptor of its own peer, and the insert does not overwrite |
| ServerTheorems.OneFatePerPeer | src/server/server.cpp:183-206 | each registered peer is registered, being removed, disconnected or dropped, exactly one of these, and `onDisconnect` ran once if disconnected and never otherwise |
| ServerCallbacks.CallbacksAsPrescribed | src/server/server.cpp:157-202 | in every run `onRecvData` starts exactly at the lookup of a readable event for the peer the registry holds under its descriptor, `onNewClient` exactly at the insert, for the peer inserted, `onDisconnect` exactly at the erase, for the peer found |
| ServerCallbacks.DisconnectsAreCalls | src/server/server.cpp:188-202 | counted on the call stacks of the run, `onDisconnect` has started for a peer as often as the history says, at most once |
| ServerCallbacks.InsertsAreCalls | src/server/server.cpp:157-162 | `onNewClient` has started once for each peer ever inserted and never for another |
| ServerCallbacks.OneCallbackEach | src/server/server.cpp:157-202 | no peer is disconnected that was not announced, and none is registered after its `onDisconnect` has started |
| ServerHistory.ClosedIsCounted | include/JTCP/common/file_describe.h:23-31 | the count of closings is that of the steps in which the descriptor goes from open to closed |
| ServerHistory.DroppedAtClear | src/server/server.cpp:100-104 | a client is dropped if and only if the registry held it when it was cleared |
| ServerHistory.LateWaitsAreCounted | src/server/server.cpp:61-65 | the count of late waits is that of the calls of `epoll_wait` after the stop |
| ServerHistory.OneLateWait | src/server/server.cpp:61-65 | there is at most one |
| ServerHistory.BufferDoublesWhenFull | src/server/server.cpp:74-77 | the buffer is the initial size doubled once for each batch that filled it |
| ServerDispatch.BatchInOrder | src/server/server.cpp:79-95 | while a batch is dispatched the events taken up are its first ones, in order and each once; at its end they are all of it |
| ServerDispatch.TakenUpByKind | src/server/server.cpp:80-94 | the listener's event is taken up by accepting, a readable one by looking its peer up, others are passed over |
| ServerTheorems.OneRemoverPerPeer | src/server/peer_client.cpp:56-70 | two threads are never both removing a peer |
| ServerTheorems.ClosedOnceAndLate | include/JTCP/common/file_describe.h:23-31 | a descriptor is closed once, exactly when nothing refers to its peer any more, and never leaked; that a callback refers to its peer is the shared pointer of the model |
| ServerTheorems.StartMeansReady | src/server/server.cpp:31-42 | success means that epoll was set up in this session, and the result taken from the future is a failure |
| ServerTheorems.EpollWasSetUp | src/server/server.cpp:107-112 | the listener is in the interest set only after a successful set-up |
| ServerTheorems.StopIsNotLost | src/server/server.cpp:44-61 | after stop the flag stays down and at most one more `epoll_wait` happens; a loop that ends through the flag leaves the registry empty |
| ServerTheorems.NothingIsLeaked | src/server/server.cpp:98-105 | once the loop has ended through the flag exactly the peers that user code or a callback still holds have open descriptors; with none of these, nothing is open and every accepted descriptor was closed once |
| ServerTheorems.FutureTakenOnce | src/server/server.cpp:34-47 | the future is consumed at most once |
| ServerTheorems.BufferIsBounded | src/server/server.cpp:56-81 | the buffer is the initial size times a power of two, at most the larger of that size and twice the most descriptors registered at once |
| ServerTheorems.PeakIsReached | src/server/server.cpp:74-77 | that number was really reached at some moment |
| ServerBatches.LookupFindsOwner | src/server/server.cpp:166-172 | in every run a lookup finds the peer its event was reported for if and only if that peer has not been disconnected since |
| ServerScenarios.LookupCanMiss | src/server/server.cpp:166-172 | a complete run in which another thread removes the peer first, so that the lookup throws |
| ServerScenarios.LookupCanFindAnother | src/server/server.cpp:166-172 | a complete run in which the lookup finds another peer that was given the same descriptor number within the batch |
| ServerBatches.OwnRunKeepsToItself | src/server/server.cpp:79-95 | if callbacks read only from their own peer, no event still to come in the batch names a disconnected peer |
| ServerBatches.OwnCallbacksFindEveryPeer | src/server/server.cpp:79-95 | then `m_client_mgr.at` never misses and never finds another peer that reused the descriptor |

## Left out

- The server is modelled on values, as a state machine, not as classes: the point is the interleaving of threads, which methods of a class cannot show. Dropping the last reference and closing the descriptor are one step together with the step that dropped it.
- `m_run_flag` is taken as sequentially consistent; the code has a plain bool.
- Socket, bind, listen and fcntl calls, the client side, sending data, and the contents of results and messages. A failure to set the descriptor non-blocking is one of the ways in which `AddToEpoll` can fail.
- Calls of `readData` that read something: they change nothing in the server and are not steps.
- A second session after the loop has failed, when the registry is not cleared.
- That every pending connection is accepted: the listener is edge-triggered and one accept runs for each event.
- SubcaseEngine.Engine.Construct: the subcase filters and the call to the reporter are not modelled; a subcase re-entered by control flow (a loop around it) is not either, the tree of a body is fixed.
- SubcaseEngine.Engine.Destroy: the report of an uncaught exception and the call to the reporter are not modelled.
- SubcaseEngine.Engine.RunOnce: exceptions and signals during the body, and the reset of the logging context, are not modelled.
- SubcaseEngine.Engine.RunTest: `abort_after`, which can end the loop early, and the failure flags are not modelled.
- String: `substr`, `rfind`, `setSize`, construction from a stream, and indexing; indexing past the contents is undefined in the source.
- SmallString.String.Allocate: a size of 2^32 - 1 is not covered; there the source's capacity wraps around to 0 and it writes behind an empty block.
- SmallString.String.FromBytes: the same size is not covered, for the same reason.
- SmallString.String.Append: both lengths together must stay below 2^32 - 1, the last size whose terminator fits, as the source silently demands; `s += s` is not covered, because the source then copies between ranges that overlap in one byte, which `memcpy` does not allow.
- WildcardMatcher.Wildcmp: `tolower` is that of the C locale.
- XmlOutput.XmlWriter.StartElement: an element name consists of letters, digits and underscores, which every caller in the repository passes; XML allows more, and the source writes any string.
- XmlOutput.XmlWriter.WriteAttribute: the attribute's name is such a name or empty; the source writes any string.
- XmlReader.RunAttribute: the reader takes only what this writer can produce: names of ASCII letters, digits and underscores, the four entities, no comments, character references or document type, and of the possible XML declarations the one for version 1.0 and UTF-8.
- XmlReport.XmlReporter.TestRunStart: `report_query` and the removal of `.exe` from the program's name on Windows are not modelled; numbers in floating point are given as the text the stream prints.
- XmlReport.XmlReporter.TestCaseStartImpl: `timeout` is given as text, for the same reason.
- XmlReport.XmlReporter.LogAssert: the mutex is not modelled, callbacks come one after the other.
- XmlReport.XmlReporter.LogMessage: the same.
- XmlRun.ReportRun: signals and crashes in the middle of a run.
- MultiLane.MultiLaneAtomic.FetchAdd: integers are unbounded, so that overflow of a lane is not modelled; memory orders are sequentially consistent, and threads are numbered in the order in which they come.
- MultiLane.MultiLaneAtomic.FetchSub: overflow is not modelled.
- MultiLane.MultiLaneAtomic.Load: overflow of the sum is not modelled.
- MultiLane.Count: overflow of lanes and sum is not modelled.
- Macros, expression decomposition, the other reporters, timers and the option table.
