# Serial chronometer: a verified model

The program is the gateway between an agility chronometer, the judges' web pages and the competition
server. Around its sockets and serial ports it holds a handful of algorithms that are easy to get wrong.
This project models those algorithms in Dafny, in the form they have in C and JavaScript (objects with
fields, arrays overwritten in place, linked lists, loops), and proves each against a plain specification
about which the promised properties are then proved.

| files | what they model | main results |
|---|---|---|
| `Cycles`, `Permute` | `gcd` and `permute_args`: two blocks of argv exchanged by following cycles | the cycles visit every slot once; the array becomes the block exchange |
| `LongOptions`, `OptSpec`, `OptScan`, `OptTheorems`, `OptRescan`, `OptRoundTrip` | `getopt_internal` with the variables it keeps between calls | a whole run returns what a plain left-to-right scan returns, and argv ends as a stable partition; options written in any spelling are returned call by call as they were meant; rescanning the result the POSIX way gives the same options, exactly when no option ran out of arguments in front of moved words |
| `JsonGrammar`, `JsonNumber`, `JsonLex`, `JsonStore`, `JsonZipper`, `JsonParser`, `JsonText`, `JsonRoundTrip`, `JsonSound`, `JsonPool`, `JsonQuery` | tiny-json: the in-place, non-recursive parser with its node pool, and what `parse_events` does with it | the pointer loop accepts what a recursive parser accepts and builds its tree; a text is accepted exactly when it is an object as it may be written, in any spelling, and the tree is what was written; exactly when the counted pool suffices; the event walk keeps order |
| `TextTools`, `ScTools` | `%d`, `atoi`, `explode`, `str_replace` | pieces of a line; replacement that leaves nothing to replace, and when it is the ordinary one |
| `MainStatus`, `Canometroweb`, `Commands`, `ChronoRuns` | the command handlers, the poll-to-event detector, the text between them, and whole runs | the timing commands of whole races; STOP and INT only after START; exactly when the poller is refused, and when it falls silent; what keeps the status sane |
| `Digican` | the serial display that only takes relative commands | mirror and device over any run, and exactly when they agree; words that come back are understood |
| `Queue`, `Cursor` | the message queue and the web page polling it | for a page there from the start, in-order delivery without loss or repetition as long as the queue is only emptied when the page has caught up; what a page loaded later gets instead |
| `IniSpec`, `IniParser`, `IniRoundTrip` | the INI reader and parser, in one reused line buffer | printing and parsing a list of items gives back its handler calls, and the first wrong line or refused call |
| `CBase` | C characters, `strchr`, optional results | |

Pointers into a text or a pool are indices, -1 standing for NULL. A `char` is modelled by a `char`, a
terminated string by a buffer that holds a NUL. Ghost parameters (the original text, the tree being built)
only help to state contracts.

## Where the code differs from its intent

The code is modelled as written. Where a property one would expect fails, it is shown to fail, and the
condition under which it holds is proved.

- `getopt_internal` can return -1 before the end (src/getopt.c:470-471) and leave argv unsorted, when a
  option word ends in `-` behind other letters (`OptTheorems.StuckAt`). That can happen exactly when there is no long-option table and
  `-` is no option letter (`OptTheorems.StuckIff`).
- After permuting, a POSIX-style scan agrees except when the last option wanted an argument, found none,
  and words were moved behind it (`OptRescan.PosixRescan`).
- The pool of `parse_events` can be too small for arrays of plain values (`JsonPool.PoolCanBeTooSmall`);
  `JsonPool.PoolFitsIff` says exactly when it is large enough. Its list of answers is overrun when more commands
  than "total" precede the last event (`JsonQuery.WritesFitIff`).
- A stopped device that reports an elimination other than 0 or 1 has its score sent for ever, unless the status
  shows it from the start (`ChronoRuns.ConvergesIff`), since a score command stores only 0 or 1.
- A score with a total below the stored touches makes the faults negative, the one command that does so
  (`MainStatus.FaultsStayIff`); "fault -" can then raise the shown total (`MainStatus.LowScoreThenMinus`).
- A STOP or INT of the poller is refused exactly when the last thing that touched the start time, from any
  source, took it away (`ChronoRuns.AcceptedIff`); so it is after another source has reset the status, until
  the poller or another source starts it again (`ChronoRuns.RefusedUntil`).
- The digican `fault` command compares its mirror with the faults without the touches
  (src/modules/digican.c:174); `Digican.FaultFollowsIff` says when the display still ends up right. When
  the device clears itself (src/modules/digican.c:101-102), nothing tells the mirror: the display then stays
  behind by what the mirror held (`Digican.DriftIs`, `Digican.AgreeIff`, `Digican.SelfResetDrifts`).
- `queue_get` follows `next` to the older item and so empties the queue (`Queue.MsgQueue.Get`), hence
  `queue_expire` drops everything once the oldest message has expired; a page that has not caught up then
  loses messages (`Cursor.EarlyDropSkips`). A page loaded after the queue has dropped messages starts counting
  from 0 and handles the oldest one left again and again (`Cursor.LatePageRepeats`); it is served properly
  exactly when nothing has been dropped (`Cursor.ServedInOrderIff`).

## Model

| member | source | states |
|---|---|---|
| Permute.EuclidGcd | src/getopt.c:142-155 | the C loop computes the specified Euclidean gcd |
| Permute.CycleOf | src/getopt.c:177-183 | cycle i starts at slot i of the second block, and each slot is followed by the one the C code goes to |
| Cycles.GcdDivides | src/getopt.c:142-155 | the result divides both numbers and lies between 1 and the second |
| Cycles.GcdGreatest | src/getopt.c:142-155 | every common divisor divides the result, so it is the greatest |
| Cycles.OrbitInjective | src/getopt.c:175-190 | following a cycle of length (a+b)/gcd meets no slot twice |
| Cycles.OrbitCloses | src/getopt.c:175-190 | after exactly that many steps the cycle is back at its start |
| Cycles.OrbitSurjective | src/getopt.c:175-190 | a cycle meets every slot that differs from its start by a multiple of the gcd |
| Cycles.ClassIsOrbit | src/getopt.c:177-178 | the cycle begun at slot i of the second block is residue class i, so the gcd-many cycles cover the window without overlap |
| Permute.RunCycle | src/getopt.c:178-190 | swapping along a cycle moves each word one step on and touches nothing else |
| Permute.RotateClass | src/getopt.c:177-191 | one turn of the outer loop puts one more residue class in place, all others as before |
| Permute.AllRotated | src/getopt.c:162-192 | once every class is in place the array is the exchange of the two blocks |
| Permute.PermuteArgs | src/getopt.c:162-192 | for every pair of blocks, the second non-empty, the array becomes the exchange of the two, each in its own order, with the rest untouched |
| LongOptions.FindLong | src/getopt.c:213-248 | the table search answers what the name resolves to: an exact entry wherever it stands, else the first entry abbreviated, else nothing, or ambiguous |
| LongOptions.ResolveIsRight | src/getopt.c:218-256 | the one-pass search meets the declarative reading for every table and name |
| LongOptions.ResolvesUnique | src/getopt.c:218-256 | the declarative reading allows one answer only |
| LongOptions.AcceptedIff | src/getopt.c:218-256 | without short options a name is accepted iff it is exact, or a prefix of entries that all mean the same; it is ambiguous in exactly the other multi-match cases |
| OptScan.Getopt.ParseLongOptions | src/getopt.c:199-321 | result, argument, optind, optopt, table index and stored flag are those of the long option at hand, with nothing else changed |
| OptScan.Getopt.UseLong | src/getopt.c:249-321 | the entry found is used: its argument, flag, value, index and errors |
| OptScan.Getopt.HandleElem | src/getopt.c:440-518 | one option is read as specified: long first where allowed, else the short letter |
| OptScan.Getopt.HandleShort | src/getopt.c:462-518 | the same for a letter, the unknown ones and the lone dash included |
| OptScan.Getopt.HandleKnown | src/getopt.c:479-518 | the same for a listed letter, with attached, optional, separate or missing argument and -W |
| OptSpec.ElemProgress | src/getopt.c:440-518 | an option shortens the letters left or uses up at least its word, never more words than there are; so the scan ends |
| OptScan.Getopt.Rotate | src/getopt.c:371-373 | options found behind skipped words change places with them; permute_args is only called with a non-empty option block |
| OptScan.Getopt.Finish | src/getopt.c:367-384 | at the end the options stand first, the skipped words next, and optind between them |
| OptScan.Getopt.SkipWord | src/getopt.c:403-415 | a non-option joins the skipped words, in order |
| OptScan.Getopt.TakeWord | src/getopt.c:388-395 | with a leading '-' a non-option is returned as the argument of option 1 |
| OptScan.Getopt.PassDashes | src/getopt.c:423-437 | "--" ends the options and counts as one |
| OptScan.Getopt.NextGroup | src/getopt.c:364-438 | the scan for the next option ends at one, at the end, at "--", or at a non-option, with the words arranged accordingly |
| OptScan.Getopt.Restart | src/getopt.c:342-363 | optind 0 or optreset starts a new scan; otherwise the old one goes on (the environment is looked at in GetoptInternal) |
| OptScan.Getopt.FinishElem | src/getopt.c:440-518 | the option at hand is logged and its words join the options |
| OptScan.Getopt.GetoptInternal | src/getopt.c:327-518 | from the caller's option string, flags and POSIXLY_CORRECT, looked at when the C code does: each call returns what the plain scan of the original words says comes next; -1 comes exactly when that scan is over, with the words partitioned; a null option string changes nothing |
| OptScan.Getopt.NextResult | src/getopt.c:338-518 | the same once mode and letters are settled |
| OptScan.Getopt.ScanArgs | src/main.c:132-154 | calling until -1 yields the plain scan's results in order; argv becomes options, skipped words, unread words, with optind at the first non-option; and what it looks like when the scan sticks |
| OptTheorems.ScanPartitions | src/getopt.c:361-518 | the words read are a prefix, and options and skipped words are its two subsequences in input order; only non-options are skipped, and only when permuting |
| OptTheorems.ScanPermutes | src/getopt.c:361-518 | the rearranged words are a permutation of the words |
| OptTheorems.ScanReadsUpTo | src/getopt.c:396-437 | words are left unread only behind "--", or from a non-option on when the scan is to stop there |
| OptTheorems.NeverStuck | src/getopt.c:470-471 | with a long-option table, or '-' among the letters, the scan never ends early |
| OptTheorems.StuckAt | src/getopt.c:462-471 | where it ends early, the first word left starts with '-' and ends in '-' behind at least one letter |
| OptTheorems.StuckIff | src/getopt.c:470-471 | it can end early for some words exactly when neither is given |
| OptRescan.ElemExtends | src/getopt.c:440-518 | an option depends only on the words it uses, unless it ran out of them |
| OptRescan.ScanRescans | src/getopt.c:345-359 | scanning the option words again, with anything that fits behind them, gives the same options, or swallows more if the last one had run short |
| OptRescan.PosixRescan | src/getopt.c:345-359 | a scan that stops at non-options agrees on the rearranged words iff no option ran short or nothing was moved behind it |
| OptRoundTrip.ConfigIs | src/getopt.c:342-359 | a leading '-' asks for operands in order; otherwise '+', POSIXLY_CORRECT or the missing flag ask to stop at the first; the letters are the rest |
| OptRoundTrip.KindOf | src/getopt.c:462-518 | a letter declared with nothing, ':', '::' or ';' behind it is found with just that |
| OptRoundTrip.LettersAlways | src/getopt.c:446-447 | clusters are read as letters without limit unless long names may have one dash |
| OptRoundTrip.ReadsBack | src/getopt.c:361-518 | every line of `-x`, `-xyz`, `-xV`, `-x V`, `--name`, `--name=V`, `--name V`, `-W name`, with getopt_long_only also `-name` in these forms, with operands between them, unknown letters and names, arguments too many, and at the end `--` or a missing argument: result, optarg, table index, stored value and optopt of each call, and where each word goes, are those meant |
| OptRoundTrip.ParseLine | src/main.c:132-154 | the same through the program's own loop, from the option string on, with argv and optind as it leaves them |
| JsonLex.SkipBlank | src/tiny-json.c:434-436 | the next character that is no blank |
| JsonLex.SkipNum | src/tiny-json.c:441-447 | the next character that is no digit |
| JsonLex.FourHex | src/tiny-json.c:117-123 | whether four hexadecimal digits stand here |
| JsonLex.ParseString | src/tiny-json.c:130-154 | the string is unescaped in place and terminated, below the read position; the text ahead is untouched; it fails exactly where the grammar does |
| JsonLex.PropertyName | src/tiny-json.c:161-169 | the same for a member's name, which goes into its node, up to where the value starts |
| JsonLex.TextValue | src/tiny-json.c:176-182 | the same for a text value |
| JsonLex.SetToNull | src/tiny-json.c:455-458 | a primitive is terminated at once unless a bracket follows, which is left to be read |
| JsonLex.CheckStr | src/tiny-json.c:189-194 | whether a literal stands here |
| JsonLex.PrimitiveValue | src/tiny-json.c:204-210 | true, false and null, as the grammar has them |
| JsonLex.RealPart | src/tiny-json.c:279-288 | the end of fraction and exponent, or failure where a digit is missing |
| JsonLex.Exceeds | src/tiny-json.c:297-302 | strcmp of threshold and lexeme, up to the terminator put behind it |
| JsonLex.Fits | src/tiny-json.c:290-305 | the range test, after which the overwritten character is back |
| JsonLex.NumValue | src/tiny-json.c:270-308 | a number is accepted as the grammar has it and left in place, terminated |
| JsonNumber.LexIsNumeric | src/tiny-json.c:297-302 | for digit strings of one length, string order is number order |
| JsonNumber.RangeTest | src/tiny-json.c:290-305 | the length test and comparison accept an integer lexeme exactly when its value lies in -2^63 to 2^63-1 |
| JsonParser.StaticPool.Alloc | src/tiny-json.c:399-403 | nodes are handed out in order until none is left |
| JsonParser.Add | src/tiny-json.c:313-322 | the node is linked as last child and nothing else changes |
| JsonZipper.ResumeClose | src/tiny-json.c:342-350 | closing the innermost container continues the recursive parse with it as a child of the next |
| JsonZipper.ResumeItem | src/tiny-json.c:351-381 | reading one member whole continues the recursive parse with it added |
| JsonZipper.ResumeOpen | src/tiny-json.c:362-375 | opening a container continues the recursive parse with one more open |
| JsonZipper.ItemNeedsNode | src/tiny-json.c:351-352 | if an item lies ahead, the finished tree needs more nodes than are in use: an empty pool is never the fault of the order of allocation |
| JsonZipper.FramesAdd | src/tiny-json.c:313-322 | linking a node in keeps the chains and parent links of all open containers |
| JsonZipper.FramesClose | src/tiny-json.c:342-350 | clearing the parent link makes the closed container an ordinary child of its parent |
| JsonStore.StoredPasses | src/tiny-json.c:341-382 | a finished subtree, its strings included, survives everything the loop later writes |
| JsonStore.ChainAppends | src/tiny-json.c:313-322 | child lists keep source order and end at last_child |
| JsonParser.TakeNode | src/tiny-json.c:351-360 | a node is taken, named and linked in, or the pool is exhausted or the name malformed |
| JsonParser.ReadLeaf | src/tiny-json.c:376-380 | the switch picks the leaf parser the grammar asks for |
| JsonParser.Step | src/tiny-json.c:351-382 | one turn of the loop keeps the state invariant and the recursive parse that remains |
| JsonParser.Close | src/tiny-json.c:342-350 | so does a closing bracket; at the outermost one the tree is complete |
| JsonParser.ObjValue | src/tiny-json.c:329-384 | the loop succeeds iff the recursive parser does and its tree fits the pool, and then the pool holds that tree: child lists in order, no parent link left, every string terminated, the text behind untouched |
| JsonParser.Create | src/tiny-json.c:70-93 | the same for a whole text |
| JsonRoundTrip.TextReads | src/tiny-json.c:97-154 | a string reads back from every spelling of section 7 of RFC 8259: each character as itself, by its short escape, or, for '?', by `\u` and any four hexadecimal digits |
| JsonRoundTrip.NumberReads | src/tiny-json.c:270-288 | a numeral of RFC 8259 section 6 reads back whole |
| JsonRoundTrip.ItemsFill | src/tiny-json.c:334-341 | blanks and commas between members or elements, in any number, are read past |
| JsonRoundTrip.KidsRead | src/tiny-json.c:329-384 | members or elements as they may be written, each with its own blanks and spellings, read back in order |
| JsonRoundTrip.RoundTrip | src/tiny-json.c:70-80 | every object tree of printable strings, numerals and 64-bit integers, printed with any blanks and followed by anything, parses to itself |
| JsonRoundTrip.Complete | src/tiny-json.c:70-80 | a whole object as it may be written, behind any blanks and in front of anything, parses to the tree it means |
| JsonSound.TextIsSpelled | src/tiny-json.c:130-154 | a string that is accepted is a spelling of the text read |
| JsonSound.NumberIsNumeral | src/tiny-json.c:270-308 | a number that is accepted is a numeral of section 6 of RFC 8259, in the 64-bit range if an integer |
| JsonSound.ItemsAreWritten | src/tiny-json.c:329-384 | members or elements that are accepted stand there as they may be written, and mean what was read |
| JsonSound.Sound | src/tiny-json.c:70-80 | so does a whole text that parses |
| JsonSound.ParsesIff | src/tiny-json.c:70-80 | a text is accepted iff it starts with an object as it may be written, and then the tree is what that means |
| JsonPool.CountTokens | src/ajax_json.c:338-339 | the number of ':', '[' and '{' in the text |
| JsonPool.ItemsCount | src/ajax_json.c:338-342 | where the counted characters of a text go: nodes and container members on one side, characters and plain elements on the other, are equal once those inside strings are taken out |
| JsonPool.PoolFitsIff | src/ajax_json.c:338-342 | the counted pool holds the tree iff plain array elements are no more than container members, counted characters inside strings and counted characters behind the object together |
| JsonPool.PoolSuffices | src/ajax_json.c:338-342 | so it holds every tree with no more plain elements than container members, and every tree whose arrays hold only objects and arrays |
| JsonPool.ItemsNamed | src/tiny-json.c:353-359 | members of objects have names, elements of arrays have none |
| JsonPool.PoolCanBeTooSmall | src/ajax_json.c:338-342 | an array of three numbers is too much for it |
| JsonPool.CreateCounted | src/ajax_json.c:337-346 | parsing with the counted pool succeeds iff the text is well formed and that condition holds |
| JsonQuery.GetProperty | src/tiny-json.c:43-49 | on a parsed tree, the node of the first member of that name, or none |
| JsonQuery.GetPropertyValue | src/tiny-json.c:52-58 | the text of that member, unless it is an object or array |
| JsonQuery.ItemsNulFree | src/tiny-json.c:130-154 | no string of a parsed tree holds a NUL, so strcmp and the callers see it whole |
| JsonQuery.ReadRow | src/ajax_json.c:371-388 | one row adds its event's data and command, and its number is remembered |
| JsonQuery.ParseEvents | src/ajax_json.c:336-390 | it fails iff the text is malformed, too large for the pool, or lacks "total" or the array "rows"; otherwise it answers the events' commands and the last event's number, and whether the list of 1 + total slots holds them |
| JsonQuery.LastIdIs | src/ajax_json.c:371-376 | the number remembered is the one the "ID" of the last object among the rows holds |
| JsonQuery.NoEvent | src/ajax_json.c:371-376 | without an object among them it stays as it was |
| JsonQuery.DataInOrder | src/ajax_json.c:377-386 | the data are those of exactly the objects that have "Data", in row order |
| JsonQuery.PropertyIs | src/tiny-json.c:43-58 | of members with one name the first one that bears it is taken, if it is no object or array |
| JsonQuery.WritesFitIff | src/ajax_json.c:364-386 | no write goes past that list iff the data before the last make no more commands than "total" |
| JsonQuery.RowsFit | src/ajax_json.c:364-386 | so none does, and an empty slot is left at the end, if there are no more rows than "total" |
| JsonQuery.AnswersInOrder | src/ajax_json.c:371-388 | the commands are in the order of the events, one for each that has one |
| TextTools.AtoiOfDecimal | src/ajax_json.c:124 | atoi reads back what %d printed, whatever follows |
| TextTools.JoinSplit | src/sc_tools.c:94-113 | the pieces and their separators are the line |
| TextTools.SplitClean | src/sc_tools.c:94-113 | no piece holds a separator |
| TextTools.PieceChars | src/sc_tools.c:94-113 | nor any character the line does not hold |
| ScTools.Explode | src/sc_tools.c:94-113 | the copy is cut so that each of the reported slots holds its piece of the line as a terminated string |
| ScTools.StrReplace | src/sc_tools.c:34-66 | the loop ends, and replaces the first occurrence again and again, for any other replacement no longer than the substring, and for a single character with any replacement that does not hold it |
| ScTools.TurnShrinks | src/sc_tools.c:49-61 | why it ends: each turn leaves a shorter string, or fewer occurrences of the single character, or moves the string one way in lexicographic order |
| ScTools.RankFalls | src/sc_tools.c:49-61 | with equal lengths every turn moves the string the same way in lexicographic order |
| ScTools.NoneLeft | src/sc_tools.c:34-66 | the result holds no occurrence, not even one made by replacing |
| ScTools.ReplaceEach | src/sc_tools.c:34-66 | replacing one character by a string without it writes the string for each occurrence |
| ScTools.ReplaceByNothing | src/sc_tools.c:34-66 | replacing one character by nothing filters it out |
| ScTools.LoopIsOnePass | src/sc_tools.c:34-66 | with a replacement of any length that differs from the substring however the two are laid over each other, the loop ends, and ends with the ordinary replacement, once through from the left |
| ScTools.ReplacedPieces | src/sc_tools.c:34-66 | then nothing changes up to the first occurrence, it becomes the replacement, and what is behind it is replaced on its own |
| ScTools.LicencePath | src/license.c:286 | for the one such call: the path of the licence file becomes that of the settings |
| ScTools.NeverDone | src/sc_tools.c:49-61 | a replacement that holds the substring always leaves an occurrence |
| ScTools.HoldingEndsIff | src/sc_tools.c:49-61 | with such a replacement the loop ends iff there is nothing to replace |
| ScTools.SingleEndsIff | src/sc_tools.c:49-61 | for a single character and a replacement of any length it ends iff the replacement does not hold the character or the string does not |
| MainStatus.Configuration.FaultHandler | src/main_mgr.c:79-97 | the new status, fields not concerned unchanged |
| MainStatus.Configuration.DataHandler | src/main_mgr.c:123-138 | the new status of a score with the shown total |
| MainStatus.Configuration.ResetHandler | src/main_mgr.c:139-151 | the new status, the dog number kept |
| MainStatus.Configuration.Handle | src/main_mgr.c:219-246 | the new status for every command, and when one is refused |
| MainStatus.ExecKeepsSane | src/main_mgr.c:79-204 | a command keeps all counts non-negative, elimination 0 or 1 and brightness 0 to 9 iff it is not a score with a total below the stored touches or with negative refusals |
| MainStatus.FaultsStayIff | src/main_mgr.c:79-151 | the faults stay non-negative iff it is not a score with a total below the stored touches |
| MainStatus.FaultStepIff | src/main_mgr.c:79-97 | exactly when "fault +" and "fault -" move the shown total by one; from a sane status always, and down as long as it is not 0 |
| MainStatus.LowScoreThenMinus | src/main_mgr.c:84-94 | after a score below the touches "fault -" shows one less than the touches, which may be more than before |
| MainStatus.AbsoluteFault | src/main_mgr.c:87-94 | "fault N" makes the shown total N exactly when N is at least the touches |
| MainStatus.TimesAre | src/main_mgr.c:20-52 | start, int and stop set the time given; start without one sets zero; int and stop are refused without one or before a start |
| MainStatus.FaultsAre | src/main_mgr.c:79-97 | what "+", nothing, "-" and a number do to faults and touches |
| MainStatus.RefusalsAre | src/main_mgr.c:99-110 | one more, one less but not below none, or the number given |
| MainStatus.TurnsAre | src/main_mgr.c:180-191 | the same for the number of the dog |
| MainStatus.BrightnessIs | src/main_mgr.c:192-204 | one step within 0 to 9, or the nearest of these to the number given |
| MainStatus.EliminationIs | src/main_mgr.c:112-122 | alone, "+" and numbers but zero eliminate; "-" and zero take it back |
| MainStatus.LowerIs | src/main.c:326 | capital letters become small ones, nothing else changes |
| Canometroweb.Poller.EdgeText | src/modules/canometroweb.c:510-576 | the sixteen-way switch reports exactly the race events: started or restarted, halted, cleared, split time |
| Canometroweb.Poller.ModuleRead | src/modules/canometroweb.c:503-609 | at most one command a poll, the score only when there is no event and it differs from the main loop's; the answer is remembered |
| Commands.SetScoreReads | src/main_mgr.c:123-138 | a printed score is read back into total, refusals and elimination |
| Commands.TextMeans | src/main.c:309-350 | the poller's text, tagged, cut into tokens and looked up, has exactly the meaning of its event for the status |
| Commands.MergeMeans | src/ajax_json.c:112-124 | a datos or crono_dat event ends as the merged total, refusals and elimination, -1 keeping what is stored, and nothing else changed |
| Commands.ServerScoreMeans | src/ajax_json.c:112-124 | the components the server gives replace those stored, the ones it writes as -1 stay |
| ChronoRuns.Round | src/modules/canometroweb.c:468-620 | poller, text and handler together act on the objects as one turn of the run model |
| ChronoRuns.RunReports | src/modules/canometroweb.c:512-579 | over any run of polls the timing commands are START for a clock that starts or restarts, STOP for one that stops with its time, RESET for one cleared, and INT for each poll of a running clock that repeats its time; nothing else |
| ChronoRuns.RaceReports | src/modules/canometroweb.c:512-579 | a race from start to stop or clearing: one START, an INT for each poll that repeats the time and none while it rises, one STOP with the final time or one RESET |
| ChronoRuns.StopsAreStarted | src/modules/canometroweb.c:512-579 | in every run from a stopped clock, with any other commands in between, each STOP or INT has an earlier START with no STOP or RESET of the poller between |
| ChronoRuns.AcceptedIff | src/main_mgr.c:20-52 | in every run, from every state and with any commands in between, a poll is accepted iff it reports no STOP and no INT, or the last mark that touches the start time (a start or a clearing by the poller, a start or a reset by another source) gives one, or none does and there was one |
| ChronoRuns.NeverRefused | src/main_mgr.c:25-52 | so the main loop never refuses the poller unless another source resets the status or starts it at a negative time |
| ChronoRuns.RefusedUntil | src/main_mgr.c:25-52 | after such a command every STOP and INT is refused until the poller or another source starts it again |
| ChronoRuns.ResetRefuses | src/main_mgr.c:139-151 | for instance between a START and the STOP that follows |
| ChronoRuns.Converges | src/modules/canometroweb.c:512-609 | with the device stopped at a constant answer, elimination 0 or 1, every poll from the third on is quiet and the status shows the device's score |
| ChronoRuns.NeverSettles | src/modules/canometroweb.c:593-602 | with any other elimination every poll from the second on sends the score, whatever is stored, unless the status shows it from the start and the first poll does not clear it |
| ChronoRuns.ConvergesIff | src/modules/canometroweb.c:512-609 | the poller falls silent iff the elimination is 0 or 1 or the score is shown from the start in that way |
| Digican.Module.Step | src/modules/digican.c:174-178 | the counting loop's text moves a counter from the old mirror to the new one |
| Digican.Module.ModuleWrite | src/modules/digican.c:123-262 | text sent and new mirror for every command |
| Digican.BufferHoldsIff | src/modules/digican.c:125-209 | the text fits the 1024 bytes of the buffer iff no more than 170 words are needed to move the mirror, a score's refusals and elimination counted in |
| Digican.DriftKept | src/modules/digican.c:171-216 | playing the text on the device keeps its distance from the mirror; reset and clock make both zero |
| Digican.MirrorIsDevice | src/modules/digican.c:120-262 | over any run of writes, whatever the status does meanwhile, the device's counters are the mirror |
| Digican.DriftLasts | src/modules/digican.c:120-262 | a difference stays constant over writes until the next reset or clock |
| Digican.DriftIs | src/modules/digican.c:101-262 | over any run, with the device clearing itself in between, it is behind by exactly what the mirror held at the last such time that no reset or clock has made good |
| Digican.AgreeIff | src/modules/digican.c:101-262 | a run ends in agreement iff the mirror was zero then, or there was no such time |
| Digican.SelfResetDrifts | src/modules/digican.c:101-102 | a score and then the device clearing itself: it shows nothing, the mirror the score |
| Digican.DeviceFollows | src/modules/digican.c:181-209 | after "data" the device shows total and refusals, after "refusal" the refusals |
| Digican.FaultFollowsIff | src/modules/digican.c:171-179 | after "fault" it shows the total exactly when the mirror was there already, or was below the faults alone just when it was below the total; always when there are no touches |
| Digican.ModuleRead | src/modules/digican.c:94-115 | the command for each text of the device |
| Digican.StopReads | src/modules/digican.c:140-143 | the number sent with "stop", padded to four places, is read back |
| Digican.HeardAsWritten | src/modules/digican.c:94-109 | the words for start, down, reset and elim, coming back, are heard as these commands; the other fixed words are not understood |
| Digican.StopHeard | src/modules/digican.c:97-100 | so is the word for stop, with the time cut to whole hundredths of a second |
| Queue.MsgQueue.Put | src/sc_tools.c:155-174 | the message is appended and the list keeps its shape: finite, ending at the oldest, indices falling by one |
| Queue.MsgQueue.Get | src/sc_tools.c:176-187 | returns the oldest message and empties the queue; that is a removal only if it held at most one |
| Queue.MsgQueue.Pick | src/sc_tools.c:192-207 | the walk finds the message asked for in every such list |
| Queue.PickedIsLeast | src/sc_tools.c:189-207 | that is the one with the least index not below the number asked, and none if there is none |
| Queue.MsgQueue.Size | src/sc_tools.c:210-216 | the subtraction gives the length of the list |
| Queue.MsgQueue.Expire | src/sc_tools.c:218-231 | nothing happens, or all is dropped once the oldest has expired |
| Cursor.ServerRead | src/web_server.c:99-126 | the answer's command and number for what the page asked |
| Cursor.Page.ReadData | html/crono.js:53-79 | one poll of the page, its answer handled |
| Cursor.Perform | src/sc_tools.c:155-187 | put, poll, drop and load on the queue and page objects are the steps of the run model |
| Cursor.ExpireTurn | src/web_mgr.c:167 | so is the regular expiry: a drop once the oldest message has expired, else nothing |
| Cursor.FollowsFromStart | html/crono.js:53-79 | for a page there from the start, following means: exactly the first lastID messages put, in order, each once, and nothing dropped that is still to come |
| Cursor.StepKeepsIff | src/web_server.c:112 | one step lets a page go on following iff no empty message is put, the queue is emptied only when the page has caught up or nothing is in it, and the page is not loaded anew after a drop |
| Cursor.Delivered | html/crono.js:53-79 | over such runs every page, loaded early or late, goes on following |
| Cursor.PollsDeliver | html/crono.js:53-79 | each poll brings one more message while there are any |
| Cursor.CatchesUp | html/crono.js:53-79 | unless the queue is empty, a page catches up with as many polls as its count is behind |
| Cursor.LatePageRepeats | html/index.html:191 | a page loaded after b messages were dropped handles the oldest one left b + 1 times |
| Cursor.ServedInOrderIff | html/index.html:191 | a new page handles what is in the queue and comes later, each once and in order, in every careful run, iff nothing had been dropped |
| Cursor.EarlyDropSkips | src/sc_tools.c:176-187 | emptied before the page has caught up, the queue loses messages: the next one put is handled in their place |
| IniParser.StringReader.Read | src/ini.c:235-258 | the next line of the text, as a terminated string, up to a newline, the size limit or the end |
| IniSpec.LinesAreText | src/ini.c:235-258 | the lines read are together the text |
| IniSpec.LinesEndRight | src/ini.c:235-258 | each ends at its only newline, at the size limit, or is the last |
| IniParser.Rstrip | src/ini.c:34-40 | the string loses its trailing blanks, in place |
| IniParser.Lskip | src/ini.c:43-48 | where its first visible character is |
| IniParser.FindCharsOrComment | src/ini.c:53-68 | where the first given character or inline comment is |
| IniParser.SectionLine | src/ini.c:163-172 | the section named, or an error, as specified for the line |
| IniParser.PairLine | src/ini.c:174-191 | name and value, trimmed and without comment, or an error, as specified for the line |
| IniParser.Classified | src/ini.c:163-191 | the two kinds of line told apart |
| IniParser.ReadMeaning | src/ini.c:140-198 | cutting the line up in its buffer yields what the line says |
| IniParser.ParseLine | src/ini.c:138-198 | section, remembered name, line number, error and calls after one line |
| IniParser.ParseString | src/ini.c:79-211 | parsing a text makes the specified calls and answers the first bad line or refused call, 0 if none |
| IniRoundTrip.ReadHeader | src/ini.c:163-172 | a printed section line reads back, whatever its indent and whatever follows its bracket |
| IniRoundTrip.ReadEntry | src/ini.c:174-191 | so does a name and value, with any blanks around the delimiter and an inline comment |
| IniRoundTrip.ReadContinued | src/ini.c:155-161 | so does an indented continuation |
| IniRoundTrip.ReadRemark | src/ini.c:150-152 | comments and empty lines say nothing |
| IniRoundTrip.ReadBroken | src/ini.c:163-198 | a line without its bracket or delimiter is wrong |
| IniRoundTrip.ShortNames | src/ini.c:71-76 | with names of at most 49 characters the calls carry the names as given (of longer ones the section and a continued name keep their first 49) |
| IniRoundTrip.RoundTrip | src/ini.c:261-268 | for every printable list, wrong lines and a byte order mark included, exactly its handler calls are made, in order; the result is the line of the first wrong line or call refused, and 0 iff there is none |
| IniRoundTrip.FinalNewline | src/ini.c:235-258 | for any text, a newline at its end makes no difference to calls and result |

## Left out

- Sockets, serial ports, curl, web server and console threads, licence check, module loading: input and output or calls into other code.
- `synchronize_chrono` and `module_write` of the networked chronometer, and the `status` refresh of its stored answer (whose strstr arguments at src/modules/canometroweb.c:357 are swapped): the poller here is the only writer of what it remembers.
- C integer width in atoi, counters, indices and times, except the 64-bit range test of JSON integers; other integers are unbounded.
- Clock and time stamps: the time is a parameter; thread interleavings inside one operation: operations are atomic steps.
- Allocation failure, printed warnings and debug output.
- Handlers that change no field (help, version, ports, msg and the like) leave the status as it is; unknown command words are not looked up in the command table.
- `process_eventData` apart from its score commands (src/ajax_json.c:112-124, 162-174); its copy is taken to be terminated.
- The digits and value of JSON reals: a real is accepted and kept as text.
- The wrappers `getopt`, `getopt_long` and `getopt_long_only`, which only choose flags.
- OptScan.Getopt.GetoptInternal: long options with value -1, which a caller could not tell from the end, are excluded; calling it again after a scan that ended early is not modelled.
- OptScan.Getopt.ScanArgs: long options with value -1 are excluded.
- OptRoundTrip.ReadsBack: option strings that declare '-', ';' or ':' as a letter, or one letter twice, and lines on which the scan gets stuck (OptTheorems.StuckIff) are left to ScanArgs.
- JsonParser.Create: the code writes its first node without looking at the pool size, so an empty pool is only allowed where it is not reached; the stale `last_child` of a new container is taken to be NULL, it is never read before being set.
- JsonQuery.ParseEvents: what is made of one event's data is a parameter; every event must have an "ID", which the code reads without looking; when the answer list would be overrun, the model's goes on growing and says so; for a "total" below -1 the C code asks for a list of wrapped size and answers NULL, where the model goes on.
- JsonQuery.ReadRow: what is made of the event's data is a parameter.
- ScTools.StrReplace: of the replacements longer than a substring of two or more characters, those that hold it (HoldingEndsIff) and those apart from it (LoopIsOnePass) are decided.
- ScTools.NoneLeft: for the same replacements as StrReplace.
- ScTools.Explode: for at most 31 separators, the size of its table.
- MainStatus.Configuration.DataHandler: the argument must hold two colons.
- MainStatus.Configuration.Handle: a "data" argument must hold two colons, which the code does not check.
- Digican.ModuleRead: the wait for the serial port; the text is what has arrived.
- Digican.Module.ModuleWrite: the text grows past the 1024 bytes of the buffer where BufferHoldsIff says it does not fit; "fail", "ok", "msg" and the like send nothing.
- Cursor.ServerRead: the answer's fields, not its JSON text; messages that would need quoting are not looked at.
- Cursor.Page.ReadData: the answer is handled before the next poll, and what a command does to the page is not modelled.
- IniRoundTrip.RoundTrip: printed lines end in a newline (FinalNewline says the last need not); lines longer than the buffer and bytes of value 0 are left to ParseString.
- IniRoundTrip.FinalNewline: the last line must leave room for the newline in the buffer.
- IniParser.ParseString: for the configuration in include/ini.h (multi-line values, inline comments, byte order mark, line on the stack, errors do not stop the parser).
