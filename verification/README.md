# A verified model of MPlayer's bookkeeping

The project models the parts of this MPlayer fork that hold state, parse in more than one pass or do
arithmetic over a whole run, and proves what those parts promise.

* **Configuration store** (`ConfigSpec`, `ConfigEffect`, `ConfigRestore`, `Config`, `SubOptions`, `Profiles`). Options
  own stacks of save slots; an option that names a variable already registered is an alias and keeps the slot that was
  on top at its registration. `Config` is the store with option records and slots on the heap, so that an alias and the
  owner really share a slot object; `ConfigSpec` is the same store on values, `ConfigEffect` says what a set, a push, a
  pop and a registration each do to every variable, slot and flag, and `ConfigRestore` proves what
  push and pop restore over every run. The main result is exact: a push protects a saved variable over every
  run if and only if the slot on top is not the one its aliases share, or no alias can be set. That is the
  reason for the second push in `mencoder.c`, which the source calls a hack "for some weird reason". Options with
  children, set from a list of sub-options, are in `SubOptions`.
* **Property-string expander** (`PropertyExpand`). The one-pass machine with `skip`, `lvl` and `skip_lvl`
  against a recursive meaning, for every template text and for every written template; what each form of the text
  writes is also said without the machine.
* **String lists, deletion by index, sub-options** (`StringList`, `ListDelete`, `SubConfig`). The counting pass
  and the unescaping pass agree; round trips with the exact condition under which they hold; two deletion
  algorithms that are the same filter; the three value encodings of sub-options.
* **Subtitle lookup** (`FindSub`). Cache, shortcut and binary search against a linear scan, and exactly when a step
  counts from the subtitle beside the key.
* **Frame skip/duplicate controller** (`FrameSync`). The controller with the audio loop and the A/V correction:
  the decision in closed form for every limit, conservation, drift bounds, counting, the audio staying ahead of the
  video, the A-V difference settling, and what the correction does and does not depend on.
* **Edit decision lists** (`Edl`). The parser's layout makes the player's mute flag correct, and the player seeks
  exactly inside accepted skips.
* **Codec table** (`CodecTable`, `NameList`). Filling the arrays, resumable search, and the greedy name parser
  whose correctness is equivalent to the order of its table.
* **Subtitle stepping** (`SubSource`). Stepping by source and through sources is rotation of a ring.

Conventions. C floats are reals, C strings are sequences of characters without the terminator (buffers that
are edited in place are arrays with it), and pointers that only walk forward are the text that is left.
Memory that the C code frees or fails to free is not part of the model. Everything outside the cited
functions (option types' own parsers, property readers, demuxers, muxers, filters, encoders, seeks) is a
parameter: the outcome of a parse, what a property prints, whether a frame is emitted and whether the encoder holds
it, the lengths and timestamps of the audio chunks, where a seek lands. A C long has 32 bits.

Where the code does not do what is said about it, the model follows the code:

* The comment at `mplayer_android/mencoder.c:1421-1426` wants a skip limit of 0 to disable skipping and duplication. The
  timestamp loops look at no limit; `NoSkipRuns` gives the exact condition over runs, `NoSkipFails` a run that
  duplicates, and `NoSkipKept` cases in which the limit is kept.
* A `\x` escape of the expander advances one character too few, so its last hexadecimal digit, or the `x` when it
  has none, is read again as text (`HexDigitReadTwice`). An escape that writes a NUL ends the C string there;
  `Expand` says that the string is the whole meaning if and only if the meaning has no NUL.
* The comment in `step_sub` wants steps counted from the subtitle on display. They are not for a negative key, which is
  compared with unsigned times (`StepSign`, `NegativeKeyFails`), nor when the current subtitle is not beside the key.
  Lookups with a positive key keep it there (`Finder.Find`, `Finder.FindAll`); a lookup up to time 0, or a reset, that
  takes a subtitle off the display can leave a cached gap that belongs to another subtitle (`StaleGap`).
  `StepForward` and `StepBackward` say exactly when a step lands where it should.
* A mute shorter than a frame leaves the player's mute flag wrong behind it (`ShortMuteFails`); `KeepsUpExactly` and
  `SpacedMutes` say when the flag is right at every frame.
* A single push does not restore a variable that is set through an alias (`SinglePushFails`).
* Stepping through subtitle sources also stops at a source without subtitles that is registered at the end of the list,
  as the demux source is (`EmptySourceStops`). From off, stepping down then stays at off (`StepDownStaysOff`);
  `RingExactly` says when the ring has no such stop.
* A list of sub-options that is refused while it is being set leaves its first part set (`PartlySet`).
* An index that is not a number ends `obj_settings_list_del` with earlier marks still in the list; this is
  part of the contract of `ObjListDel`.

## Model

| member | source | states |
|---|---|---|
| ConfigRestore.PopRestores | mplayer_android/m_config.c:127-199 | after a push, any balanced run of sets and nested push/pop, and the pop, a saved variable has its value at the push, except when the push was made on a stack of two slots: then it has the last value an alias wrote in the run |
| ConfigRestore.PushProtects | mplayer_android/m_config.c:127-263 | a push protects a saved variable over every balanced run if and only if the slot on top was not the slot its aliases share, or no alias of it can be set |
| ConfigRestore.AliasBreaks | mplayer_android/m_config.c:233-242 | the failing direction: with two slots and an alias that can be set there is a run after which the value is lost |
| ConfigRestore.SinglePushFails | mplayer_android/mencoder.c:562-566 | a store of one variable and one alias, built by registration, that a single push does not restore |
| ConfigRestore.DoublePush | mplayer_android/mencoder.c:562-566 | with the extra push every saved option is back at its value after any list of files, each set up and popped in turn |
| ConfigRestore.PlayFilesRestores | mplayer_android/mencoder.c:565-568 | from file to file: a stack of three slots or more is enough, whatever aliases the files set |
| ConfigRestore.RunKeepsWF | mplayer_android/m_config.c:127-199 | over every run the levels of each stack rise strictly from a level-0 bottom slot that no pop removes, and no two options own one variable |
| ConfigRestore.RegisterKeepsWF | mplayer_android/m_config.c:201-263 | registration at level 1 gives a well-formed store |
| ConfigRestore.SetKeepsWF | mplayer_android/m_config.c:373-377 | a set, through an alias or not, keeps the store well formed |
| ConfigRestore.PushKeepsWF | mplayer_android/m_config.c:127-163 | a push keeps the store well formed |
| ConfigRestore.PopKeepsWF | mplayer_android/m_config.c:165-199 | a pop keeps the store well formed and leaves at least the two bottom slots |
| ConfigRestore.RunHolds | mplayer_android/m_config.c:127-380 | the invariant of the restoration proof: what a run keeps of the slot below the floor of the push |
| Config.Config.Push | mplayer_android/m_config.c:127-163 | the loop over heap records gives every saved option a refreshed slot and a new one above it; the whole new state is that of the specification |
| Config.Config.Pop | mplayer_android/m_config.c:165-199 | the loop drops slots and copies the kept one back; the whole new state is that of the specification |
| Config.Config.ParseOption | mplayer_android/m_config.c:297-398 | for an option without children: lookup, mode checks and the pre-parse gate decide the status, and whether slot and variable are written; checking changes nothing |
| ConfigEffect.SetWrites | mplayer_android/m_config.c:297-380 | in any store and for any name: the first option of that name, without children, allowed and not gated in the mode, gets the parsed value, in its variable, in its own top slot or, for an alias, in slot 1 of the owner, and is marked set; every other variable, slot and flag is as before |
| ConfigEffect.SetRefuses | mplayer_android/m_config.c:305-377 | in every other case the store does not change |
| ConfigEffect.StatusMeans | mplayer_android/m_config.c:305-372 | unknown if no option has the name; for the first that has it, invalid where the mode forbids it, else the outcome of the parser |
| ConfigEffect.OwnerHasSlot | mplayer_android/m_config.c:233-242 | in a well-formed store the slot written exists, so it holds the value; without an alias it belongs to the option named |
| ConfigEffect.NameMeans | mplayer_android/m_config.c:281-295 | names match without regard to case, those of wildcard options up to the star |
| ConfigEffect.RegisterMeans | mplayer_android/m_config.c:201-263 | a new option is first in the list, with two slots that hold the value of its variable, or none of its own when an option has the address; nothing else changes |
| ConfigEffect.PushMeans | mplayer_android/m_config.c:127-163 | what a push does to each option: top slot refreshed, a slot of the new level over it, set flag cleared; the others and all variables as before |
| ConfigEffect.PopMeans | mplayer_android/m_config.c:165-199 | what a pop does to each option: exactly the slots of the level go, and where one goes the variable gets the value of the slot then on top |
| ConfigEffect.PopKeepsUnowned | mplayer_android/m_config.c:165-199 | a variable that no saved option owns is not touched by a pop |
| ConfigEffect.PushThenPop | mplayer_android/m_config.c:127-199 | a pop right after a push changes no variable that takes part; what is left of the two are refreshed slots and cleared flags |
| ConfigEffect.LastSetWins | mplayer_android/m_config.c:297-380 | after a run of sets a variable has the value of the last set that took effect on it |
| SubOptions.SetOptionTree | mplayer_android/m_config.c:297-380 | the whole function with its recursion on the children of an option, over the heap records, does what ParseTree says |
| SubOptions.StopsAtFailure | mplayer_android/m_config.c:336-371 | the first sub-option that fails ends the list with its status, an unknown one as invalid; the ones before it stay set, those after it are not looked at |
| SubOptions.PartlySet | mplayer_android/m_config.c:336-371 | a list that is refused in a configuration file because of its second sub-option leaves the first one set |
| SubOptions.BadTextSetsNothing | mplayer_android/m_config.c:341-343 | a list whose text does not parse sets nothing |
| SubOptions.TreeIsRun | mplayer_android/m_config.c:336-377 | setting an option with children, to any depth and with any errors, is a run of sets of leaves but for the set flags of options with children |
| SubOptions.NextIsWritten | mplayer_android/m_config.c:344-377 | the next value of a list goes into the variable and the slot of the child it names, under the name of its parent, a colon and its own; nothing else changes |
| SubOptions.ParentMeans | mplayer_android/m_config.c:318-377 | an option with children is refused by the mode, or its list is set, or only checked where the gate holds; its set flag goes up when the whole list went well |
| SubOptions.CheckChangesNothing | mplayer_android/m_config.c:297-380 | a check changes nothing, to any depth |
| SubOptions.UnknownIsInvalid | mplayer_android/m_config.c:353-359 | a sub-option that no option has the name of makes the list invalid, whatever comes before it |
| SubOptions.TreeLastSet | mplayer_android/m_config.c:336-377 | after a tree of options is set, with any errors in it, a variable has the value of the last leaf that took effect on it |
| SubOptions.PopUndoesTree | mplayer_android/m_config.c:127-371 | a pop undoes it for every saved variable on more than two slots or without an alias that can be set |
| Config.Config.GetOption | mplayer_android/m_config.c:281-295 | the first option of the list whose name matches, wildcards and case included |
| Config.Config.AddOption | mplayer_android/m_config.c:201-263 | a new record owns two slots, or shares those of the option that has its address |
| Profiles.ExpandIsFlatten | mplayer_android/m_config.c:491-554 | a profile that reaches no cycle and fits the depth limit has exactly the effect of its settings inlined in order, whatever cycles there are among other profiles |
| Profiles.SelfIncludeRepeats | mplayer_android/m_config.c:491-502 | a profile that includes itself is applied once for each depth left, so application ends on cycles too |
| Profiles.SettingsInOrder | mplayer_android/m_config.c:491-502 | the settings of a profile take effect in order |
| Profiles.PlainInOrder | mplayer_android/m_config.c:491-502 | settings without includes are the sets of their names to their values, one for one |
| Profiles.UnknownAppliesNothing | mplayer_android/m_config.c:526-531 | a list with one unknown name applies none of its profiles |
| Profiles.IncludeMeans | mplayer_android/m_config.c:491-502 | an included profile is applied one level deeper, down to the depth limit of 20 |
| Profiles.PopUndoesProfile | mplayer_android/m_config.c:127-263 | a push, a whole profile with its nested profiles, and the matching pop leave a variable saved on a stack of more than two slots as it was, aliases or not |
| Profiles.Loader.SetProfile | mplayer_android/m_config.c:491-502 | ends for every profile graph, restores the depth, and performs exactly the sets of the expansion |
| Profiles.Loader.SetProfileOption | mplayer_android/m_config.c:504-554 | a list with an unknown name applies nothing; otherwise its profiles are applied in order although nested sets overwrite the slot the list came from |
| PropertyExpand.RunIsEval | mplayer_android/m_property.c:122-191 | at any level and any skip state the flat machine writes what the recursive meaning of the text up to the closing parenthesis is, then goes on one level down |
| PropertyExpand.ExpandIsEval | mplayer_android/m_property.c:117-195 | for every text, well bracketed or not, the expansion is its recursive meaning |
| PropertyExpand.ParsePrint | mplayer_android/m_property.c:122-180 | reading a written template gives back its nodes, whatever text follows |
| PropertyExpand.ExpandPrinted | mplayer_android/m_property.c:117-195 | every template of characters, properties and nested conditionals, once escaped and written, expands to its recursive evaluation |
| PropertyExpand.HexDigitReadTwice | mplayer_android/m_property.c:134-148 | every hexadecimal escape, with two, one or no digits, writes its byte and resumes one character too early, so that its last character is written too; the effect on the whole expansion |
| PropertyExpand.HexByte | mplayer_android/m_property.c:134-148 | for every byte, its two hexadecimal digits in either case behind the escape write the byte and then the second digit |
| PropertyExpand.HexOneDigit | mplayer_android/m_property.c:134-148 | one digit, with none behind it, writes its value and then itself |
| PropertyExpand.HexSigned | mplayer_android/m_property.c:134-148 | a blank or a sign before one digit is part of the number, and a minus sign counts down from 256 |
| PropertyExpand.HexNone | mplayer_android/m_property.c:134-148 | without a digit a NUL is written, and then the x and what follows it |
| PropertyExpand.EscapeMeans | mplayer_android/m_property.c:123-133 | what each other escape writes |
| PropertyExpand.PropertyMeans | mplayer_android/m_property.c:153-163 | a property prints its value, or nothing when it has none |
| PropertyExpand.ConditionMeans | mplayer_android/m_property.c:164-180 | a conditional shows its text if the property is there, a negated one if it is not |
| PropertyExpand.UnclosedMeans | mplayer_android/m_property.c:153-164 | the opening of a property or a conditional whose name has no end is plain text |
| PropertyExpand.PlainCopied | mplayer_android/m_property.c:122-191 | text without escapes and openings comes out as it is, closing parentheses included |
| PropertyExpand.Escape | mplayer_android/m_property.c:123-148 | the escape switch yields at most one character and the text after the escape |
| PropertyExpand.Append | mplayer_android/m_property.c:184-189 | the buffer grows when needed, keeps what was written, and leaves room for the terminator |
| PropertyExpand.Item | mplayer_android/m_property.c:122-180 | one round of the loop keeps skip within 1 <= skip_lvl <= lvl and what is still to be written |
| PropertyExpand.Expand | mplayer_android/m_property.c:117-195 | the result is terminated inside its buffer and is the recursive meaning of the template; the C string in it is the meaning if and only if the meaning has no NUL |
| StringList.CountIsFields | mplayer_android/m_option.c:596-632 | the second pass finds the first one's count, and one field more exactly when the text ends in an unescaped separator; fields and terminator fit n + 2 slots |
| StringList.RoundTrip | mplayer_android/m_option.c:564-649 | joining escaped fields and parsing gives them back if and only if no field but the last ends in a backslash |
| StringList.TwoFields | mplayer_android/m_option.c:551-632 | a comma separates two fields, and behind a backslash it is part of one |
| StringList.FieldsOfJoin | mplayer_android/m_option.c:551-632 | otherwise fields are lost: strictly fewer come back |
| StringList.JoinEmpty | mplayer_android/m_option.c:591-593 | the text of a list is empty, and so refused, for one empty field only |
| StringList.PrintedIsJoin | mplayer_android/m_option.c:675-693 | for comma-free fields the printer is the joining |
| StringList.PrintedParses | mplayer_android/m_option.c:564-693 | printing such a list and parsing the text gives the list back |
| StringList.GetNextSep | mplayer_android/m_option.c:551-562 | finds the first unescaped separator; when it edits, the escapes before it are gone from the buffer and the rest has moved up |
| StringList.CountPass | mplayer_android/m_option.c:596-604 | counts without changing the buffer |
| StringList.SplitPass | mplayer_android/m_option.c:613-632 | stores the fields in order, inside the slots allocated from the count |
| StringList.Parse | mplayer_android/m_option.c:591-649 | the code for empty and out-of-range texts, and the terminated list of fields otherwise |
| StringList.Print | mplayer_android/m_option.c:675-693 | the printed text of the slots, none for an empty list |
| ListDelete.KeptAll | mplayer_android/m_option.c:500-549 | what is kept is exactly the entries whose index is not deleted, in order |
| ListDelete.PositionsMeans | mplayer_android/m_option.c:517-524 | str_list_del deletes exactly the entries whose index is in the list |
| ListDelete.FromEndsMeans | mplayer_android/m_option.c:1662-1682 | obj_settings_list_del also those whose index less the length is: -1 is the last entry |
| ListDelete.StrListDel | mplayer_android/m_option.c:500-549 | marking, counting and rebuilding is filtering by the valid indices, with repeated and invalid ones ignored |
| ListDelete.ObjListDel | mplayer_android/m_option.c:1640-1696 | marking and shifting left is the same filtering with negative indices counted from the end, and never reads past the original terminator |
| ListDelete.Compact | mplayer_android/m_option.c:1686-1691 | the nested shifting loops leave the named entries and a terminator |
| ListDelete.SameDeletion | mplayer_android/m_option.c:500-549 | on indices counted from the start the two deletions keep the same entries |
| SubConfig.RoundTrip | mplayer_android/m_option.c:937-1030 | every list of known, accepted sub-options, each value in any form legal for it, is read back |
| SubConfig.FirstError | mplayer_android/m_option.c:1003-1012 | the first unknown or refused sub-option decides the error code, whatever follows it |
| SubConfig.MalformedIsInvalid | mplayer_android/m_option.c:965-996 | a quote that is not closed, text behind a closed quote or a counted value, a count beyond the end and a count without its percent sign are invalid, whatever good sub-options come before |
| SubConfig.EmptyValue | mplayer_android/m_option.c:985-1012 | an equals sign without a value is as good as none |
| SubConfig.PlainExactly | mplayer_android/m_option.c:985-989 | the plain form reads a value back if and only if it has no colon and does not start with a quote or percent sign |
| SubConfig.QuotedExactly | mplayer_android/m_option.c:965-974 | the quoted form reads a value back if and only if it has no quote |
| SubConfig.CountedRead | mplayer_android/m_option.c:975-984 | the counted form reads every value back |
| SubConfig.StrtolDec | mplayer_android/m_option.c:977 | the length written in decimal is read in full |
| SubConfig.HexLength | mplayer_android/m_option.c:977 | lengths can be hexadecimal |
| SubConfig.OctalLength | mplayer_android/m_option.c:977 | or octal |
| SubConfig.SignedLength | mplayer_android/m_option.c:977 | or signed |
| SubConfig.BlankLength | mplayer_android/m_option.c:977 | with blanks before them; without a digit the length is 0 |
| SubConfig.ScanItem | mplayer_android/m_option.c:954-996 | an item always consumes input |
| SubConfig.Parse | mplayer_android/m_option.c:937-1030 | the loop ends and its pairs or error are those of the grammar |
| FindSub.ScanFinds | mplayer_android/find_sub.c:88-92 | a subtitle that covers the key is the one the linear scan finds |
| FindSub.ScanMeans | mplayer_android/find_sub.c:87-88 | a subtitle is on display from its start to its end, both included, and nothing where there is none |
| FindSub.GapBetween | mplayer_android/find_sub.c:105-172 | an open interval between neighbours holds no subtitle |
| FindSub.Log2Bounds | mplayer_android/find_sub.c:121-131 | the bound used below is the integer logarithm |
| FindSub.Search | mplayer_android/find_sub.c:121-131 | at most log2(n) + 1 probes; it ends on a subtitle that covers the key or that borders on the key's gap |
| FindSub.Finder.Find | mplayer_android/find_sub.c:73-187 | after any lookup the subtitle on display is what a linear scan finds, the cached gap is empty, and the error fall-through is never reached; a lookup not answered from memory leaves the current subtitle beside the key, and so do all with a positive key as long as they start aligned |
| FindSub.Finder.Seek | mplayer_android/find_sub.c:103-173 | the part that looks at the table ends on the subtitle beside the key, shows what covers it, or caches a gap around it |
| FindSub.Finder.FindAll | mplayer_android/find_sub.c:73-187 | the same for any sequence of lookups with changes of table; with positive keys the current subtitle is beside the last key |
| FindSub.Finder.Step | mplayer_android/find_sub.c:44-71 | the index stays in the table and the new delay makes the key the start of the subtitle stepped to; the key is compared as an unsigned number |
| FindSub.Finder.StepThenFind | mplayer_android/find_sub.c:44-187 | a step followed by a lookup displays exactly the subtitle stepped to |
| FindSub.Finder.StepForward | mplayer_android/find_sub.c:55-69 | k steps forward land on the k-th subtitle that starts after the key, or the last, if and only if the key is not negative and the current subtitle is the last one started or the next, or both run past the end |
| FindSub.Finder.StepBackward | mplayer_android/find_sub.c:55-69 | the same backward, by the subtitles that have ended at the key |
| FindSub.Finder.BesideSteps | mplayer_android/find_sub.c:55-69 | from the subtitle beside a key that is not negative, steps both ways land right |
| FindSub.Finder.FindThenStep | mplayer_android/find_sub.c:44-187 | a lookup from an aligned state and then a step land on the k-th subtitle after or before the key |
| FindSub.Finder.StepSign | mplayer_android/find_sub.c:58-61 | the unsigned comparison agrees with the signed one if and only if the key is not negative, the movement is 0, or the movement leaves the table |
| FindSub.Finder.KeyMeans | mplayer_android/mpcommon.c:171-173 | the lookup key is the time behind the delay, in hundredths of a second or in frames, rounded towards 0 |
| FindSub.Finder.NegativeKeyFails | mplayer_android/find_sub.c:55-61 | at a negative key a step forward skips the first subtitle |
| FindSub.Finder.StaleGap | mplayer_android/find_sub.c:87-101 | four lookups after which the cached gap answers with a current subtitle that is not beside the key: a step forward skips a subtitle, a step backward goes ahead |
| FrameSync.StepConserves | mplayer_android/mencoder.c:1335-1499 | output time, with the frames that the encoder holds, less corrections plus c_total grows by the speed-scaled frame time, through skips, duplicates, lost and held frames |
| FrameSync.RunConserves | mplayer_android/mencoder.c:1335-1499 | the conservation law over every run |
| FrameSync.CorrectionIndependent | mplayer_android/mencoder.c:1232-1499 | when the audio timestamps advance with the audio clock, the same input gets the same c_total whatever the skip limit, output frame rate, codec, lost frames and frames held by the encoder |
| FrameSync.UnsteadyDepends | mplayer_android/mencoder.c:1232-1499 | of a sound whose timestamps jump, a frame that is lost or held changes how much is written before the next one and so the correction |
| FrameSync.HoldingCancels | mplayer_android/mencoder.c:1485-1488 | holding frames instead of writing them leaves the A-V difference as it is: output clock and encoder delay cancel |
| FrameSync.OutputHands | mplayer_android/libmpcodecs/ve_x264.c:260-266 | what is handed to the muxer and the encoder, and every counter, does not depend on which frames the encoder holds |
| FrameSync.FeedStops | mplayer_android/mencoder.c:1232-1326 | the audio loop ends at the preload or at the end of the audio, and writes no chunk more than needed |
| FrameSync.AudioAhead | mplayer_android/mencoder.c:1232-1326 | over every run the audio clock is ahead of the video clock by the preload until the audio ends, and by less than one chunk more |
| FrameSync.AvSettles | mplayer_android/mencoder.c:1479-1499 | with input in step, what is left of the A-V difference and c_total have a constant sum over every run, and what is left keeps its sign and never grows |
| FrameSync.AvDecays | mplayer_android/mencoder.c:1490-1499 | where the limit on a correction does not bite, nine tenths of what was left stay after each frame |
| FrameSync.CorrectionOfStep | mplayer_android/mencoder.c:1479-1499 | the correction of a frame as a function of the conserved quantity and the number of audio chunks written |
| FrameSync.DecideTrades | mplayer_android/mencoder.c:1368-1391 | at most one skip is asked for, and each unit of the flag is one output frame of correction |
| FrameSync.TimerAhead | mplayer_android/mencoder.c:1370-1373 | for every limit: a video clock less than a frame behind asks for one skip when it is a whole frame ahead and the limit is not 0, else for nothing |
| FrameSync.TimerBehind | mplayer_android/mencoder.c:1374-1377 | for every limit: a frame or more behind, it asks for as many duplicates as whole frames are due, but no more than a limit that is not negative |
| FrameSync.PtsBehind | mplayer_android/mencoder.c:1382-1385 | the timestamp correction, a frame or more behind: duplicates for all whole frames but one, and for the only one if a skip is asked for |
| FrameSync.PtsAhead | mplayer_android/mencoder.c:1386-1391 | two frames ahead, or one when there are duplicates to take back, it asks for a skip unless one is asked for already |
| FrameSync.LimitHolds | mplayer_android/mencoder.c:1370-1377 | five seconds of input in one-second frames under a limit of 1: one duplicate, and three seconds remain |
| FrameSync.OutputMeans | mplayer_android/mencoder.c:1397-1458 | what of frame and duplicates is handed on, lost and counted, by the decision |
| FrameSync.HeldMeans | mplayer_android/libmpcodecs/ve_lavc.c:829-835 | an encoder that holds all frames writes none, one that holds none writes all, and without an encoder all are written |
| FrameSync.ClampMeans | mplayer_android/mencoder.c:1491-1492 | the correction is the nearest number within its bound |
| FrameSync.AvDelayMeans | mplayer_android/mencoder.c:1481-1488 | how the A-V difference moves with each of its nine parts |
| FrameSync.AvDelayZero | mplayer_android/mencoder.c:1481-1488 | with everything in its place it is 0 |
| FrameSync.TimerBound | mplayer_android/mencoder.c:1370-1377 | without limit the timer error is below one output frame after its correction, which happens only when it was a whole frame off |
| FrameSync.PtsBound | mplayer_android/mencoder.c:1382-1391 | the timestamp correction stays above minus two output frames |
| FrameSync.RunDrift | mplayer_android/mencoder.c:1339-1420 | the timer error over every run with non-negative frame times, with and without lost frames |
| FrameSync.OutputTracksInput | mplayer_android/mencoder.c:1335-1458 | without audio the output, with what the encoder holds, lasts as long as the input but for less than two frames, or one if the last frame is not lost |
| FrameSync.RunCounts | mplayer_android/mencoder.c:1397-1458 | the output clock counts the frames, less skipped and lost ones, plus duplicates, less the frames held by the encoder |
| FrameSync.NoSkipExactly | mplayer_android/mencoder.c:1370-1391 | with a limit of 0 a frame is duplicated if and only if the timestamp correction is two output frames or more behind, and skipped if and only if it is two or more ahead |
| FrameSync.NoSkipRuns | mplayer_android/mencoder.c:1335-1499 | with a limit of 0 a run skips and duplicates nothing if and only if the correction is within two output frames before every frame |
| FrameSync.NoSkipKept | mplayer_android/mencoder.c:1335-1499 | it skips and duplicates nothing without sound, or with a maximal correction of 0 |
| FrameSync.NoSkipFails | mplayer_android/mencoder.c:1421-1426 | a run from the start in which a limit of 0 still duplicates |
| FrameSync.Encoder.Correction | mplayer_android/mencoder.c:1368-1391 | both loops end and decide as specified |
| FrameSync.Encoder.EncodeFrame | mplayer_android/mencoder.c:1230-1499 | one round of the loop, audio, video and correction, is one specified step, and the skip flag ends at 0 |
| FrameSync.Encoder.Put | mplayer_android/libmpcodecs/ve_lavc.c:829-835 | a frame passed to the encoder is written as a chunk or counted in the encoder delay |
| FrameSync.Encoder.WriteAudio | mplayer_android/mencoder.c:1230-1326 | the audio loop writes the specified chunks |
| Edl.AcceptedDisjoint | mplayer_android/edl.c:104-118 | the accepted intervals are not empty and strictly apart |
| Edl.LayoutRising | mplayer_android/edl.c:120-143 | every record ends before the next one starts |
| Edl.PairedMutes | mplayer_android/edl.c:126-137 | mutes are adjacent pairs: a complete list mutes nothing and no other record lies inside a mute |
| Edl.AcceptedMeans | mplayer_android/edl.c:104-118 | a line is taken exactly when it could be read, is not empty and starts after all that is taken before it |
| Edl.InOrderAccepted | mplayer_android/edl.c:104-118 | lines in order that do not touch are all taken, with their times and actions |
| Edl.RecordsOfInterval | mplayer_android/edl.c:120-143 | each accepted skip has its record, from its start to its end with its length, and each mute its two points, next to each other |
| Edl.IntervalOfRecord | mplayer_android/edl.c:120-143 | there are no other records |
| Edl.Parse | mplayer_android/edl.c:92-146 | the records are the layout of the accepted lines |
| Edl.ParityIsInMute | mplayer_android/mencoder.c:1209-1216 | counting mute records up to the first that has not ended tells whether the time lies in an accepted mute |
| Edl.BlockTracks | mplayer_android/mencoder.c:1191-1227 | through mutes, skips, backward and forward seeks the flag is the parity of the mute records passed |
| Edl.MuteParity | mplayer_android/mencoder.c:1191-1227 | the same for any lines and any run, and the flag is right about the current time whenever the player has caught up |
| Edl.FrameKeepsUp | mplayer_android/mencoder.c:1191-1227 | a player that has caught up stays so through a frame if and only if no second record has ended behind a mute record that is next |
| Edl.KeepsUpExactly | mplayer_android/mencoder.c:1191-1227 | over a run of ordinary playback the player has caught up at every frame if and only if every frame is so |
| Edl.SpacedMutes | mplayer_android/mencoder.c:1191-1227 | when frames are no longer than the mutes and the gaps between them, the flag says at every frame whether the time lies in a mute |
| Edl.ShortMuteFails | mplayer_android/mencoder.c:1191-1227 | a mute shorter than a frame leaves the flag set behind it |
| Edl.ForwardSeekMutes | mplayer_android/mencoder.c:1193-1221 | after forward seeks the flag says whether the new time lies in a mute |
| Edl.Player.DoFrame | mplayer_android/mencoder.c:1191-1227 | the block, with its jump back, behaves as specified |
| Edl.SeeksInSkips | mplayer_android/mencoder.c:1191-1200 | a player that has caught up asks for a seek if and only if it can seek and the time is inside an accepted skip |
| Edl.SeekMeans | mplayer_android/mencoder.c:1193-1221 | what each outcome of the seek does: end of file, no more seeks, passing the record, or catching up with the new time and its mute parity |
| Edl.MuteMeans | mplayer_android/mencoder.c:1209-1216 | a mute record that is reached is passed and toggles the flag |
| CodecTable.AddToFourcc | mplayer_android/codec-cfg.c:80-118 | a line is accepted exactly when well formed, fitting and without repetition; codes and aliases go into the next free slots |
| CodecTable.AddToFormat | mplayer_android/codec-cfg.c:120-155 | the same for a numeric line |
| CodecTable.AddLines | mplayer_android/codec-cfg.c:654-666 | any sequence of lines is accepted exactly when all are well formed and all codes together are distinct and fit; the slots hold them in order, with the alias of each line beside its codes |
| CodecTable.FindCodec | mplayer_android/codec-cfg.c:816-858 | the next codec after start that serves the code or has the null driver, with the alias of the first matching slot; forced, simply the next |
| CodecTable.FindAll | mplayer_android/codec-cfg.c:816-858 | resuming from each result visits every serving codec once, in table order |
| CodecTable.FindMapped | mplayer_android/codec-cfg.c:816-858 | in a table filled from lines, a codec found with its own driver has a line with the code, and the search returns the alias that line gave it |
| CodecTable.AliasOfLine | mplayer_android/codec-cfg.c:80-155 | the slot of a code holds the alias of the line that brought the code |
| CodecTable.FourCCMeans | mplayer_android/libmpdemux/aviheader.h:30-32 | a code is four bytes, the first character lowest |
| CodecTable.GroupsOfJoin | mplayer_android/codec-cfg.c:91-114 | the codes of groups of four characters with commas between them, in order |
| CodecTable.WellFormedIsJoin | mplayer_android/codec-cfg.c:91-114 | no other line is well formed |
| CodecTable.LineMapMeans | mplayer_android/codec-cfg.c:98-100 | a code goes with the alias of its line, and without one with itself |
| CodecTable.OneSlot | mplayer_android/codec-cfg.c:80-155 | in a filled table a code other than the sentinel has one slot, so one alias |
| NameList.OrderedExactly | mplayer_android/codec-cfg.c:157-163 | the parser recovers every joined list of a comma-free table if and only if no name starts a later one |
| NameList.AcceptedExactly | mplayer_android/codec-cfg.c:267-292 | for an ordered table a text is accepted if and only if it is a joined list |
| NameList.JoinRead | mplayer_android/codec-cfg.c:267-277 | a joined list of an ordered table is read back |
| NameList.ReadIsJoin | mplayer_android/codec-cfg.c:267-285 | whatever the table, what parses is the join of what it parses to |
| NameList.FlagsOrdered | mplayer_android/codec-cfg.c:232-239 | the table of flag names is ordered |
| NameList.TwoNames | mplayer_android/codec-cfg.c:267-292 | two names with a comma between them are read as their two positions |
| NameList.FormatsOrdered | mplayer_android/codec-cfg.c:157-225 | the table of the 54 format names has no comma and is ordered, as its comment demands |
| NameList.FormatsSwappedFail | mplayer_android/codec-cfg.c:160-194 | with RGB4 before RGB48LE the longer name would not be read |
| NameList.ParseFlags | mplayer_android/codec-cfg.c:250-265 | the flag text sets the bits of its names, or is an error |
| NameList.FillSlots | mplayer_android/codec-cfg.c:267-285 | accepted exactly when the list parses and fits the free slots, which then hold its codes and flags in order |
| NameList.ElementsStored | mplayer_android/codec-cfg.c:275-276 | slot by slot: the number of the name that was read, and the flags |
| NameList.AddToInOut | mplayer_android/codec-cfg.c:228-292 | the same behind the used slots, which do not change |
| SubSource.SourceIs | mplayer_android/command.c:163-176 | the scan finds the source with the greatest index not above the position, the first among equals |
| SubSource.SourceMeans | mplayer_android/command.c:163-176 | no position before its index belongs to a source, and none from a greater index on; among equal indices the first source has them |
| SubSource.BlockIs | mplayer_android/command.c:163-176 | the positions of a source are one contiguous block |
| SubSource.PlaceMeans | mplayer_android/command.c:2837-2861 | a position of the source has its place counted from 1, all others are off, and from its place a position is found again |
| SubSource.StepsAreTurns | mplayer_android/command.c:2437-2447 | STEP_UP and STEP_DOWN turn a ring of all subtitles and off; decrement then STEP_UP changes nothing |
| SubSource.StepInSource | mplayer_android/command.c:2839-2861 | one round of the stepping loop turns the ring of off and the subtitles of the source |
| SubSource.Context.SourceByPos | mplayer_android/command.c:163-176 | the loop computes that source |
| SubSource.Context.StepByType | mplayer_android/command.c:2831-2868 | from position ind[s] + i inside a block of n, k steps lead to ind[s] + (i + 1 + k) mod (n + 1) - 1, or to off where that is one before the block; from any other position they count from off |
| SubSource.NextOnRing | mplayer_android/command.c:2746-2755 | the next stop of the loop is the neighbour on the ring of its stops |
| SubSource.StopExactly | mplayer_android/command.c:2746-2755 | the stops are off, the current source, the sources with subtitles, and an empty source that starts at the end of the list |
| SubSource.RingExactly | mplayer_android/command.c:2739-2755 | the ring is off, the current source and the sources with subtitles if and only if no other source is empty at the end of the list |
| SubSource.EmptySourceStops | mplayer_android/command.c:2746-2755 | with five vobsub subtitles and a demux source without any, the ring has the empty source |
| SubSource.Context.StepDownStaysOff | mplayer_android/command.c:2739-2768 | stepping down through those sources, however often, stays at off and never reaches the vobsub source |
| SubSource.StopsOnRing | mplayer_android/command.c:2746-2755 | k stops are k places round the ring |
| SubSource.StepStops | mplayer_android/command.c:2739-2755 | the loop ends for every count and index table, k places round the ring |
| SubSource.Context.StepSource | mplayer_android/command.c:2739-2768 | the position becomes the first subtitle of the source reached, or off |

## Left out

- Config.Config.ParseOption: takes the outcome of the leaf type's parser as an argument; options with children are in SubOptions. SubOptions.SetOptionTree: does not tell a missing parameter from other errors of a leaf's parser.
- Config.Config.AddOption: covers registration at level 1 only, for options with a variable; an alias registered after a push would keep a slot that a pop frees. It takes the full name as given.
- ConfigRestore.DoublePush: is about options that push always saves; an M_OPT_OLD option is saved only when set at that level.
- Callback option types, option lists and help output, `show_profile`, `list_options`.
- Profiles.Loader.SetProfileOption: the text of the list is already split, and the "help" argument is left out. In pre-parse mode the code only checks the profile option, and the model applies it.
- PropertyExpand.Expand: requires that the machine never meets a lone backslash at the end of the text, where the code reads past it. The flag `fr` that is not cleared when output is skipped concerns memory ownership and is not modelled.
- StringList.Parse: has no suffix operators; `-add` and `-pre` put the parsed fields behind or before the list that is there and `-clr` empties it, without a further look at the text; `-del` is in ListDelete.
- ListDelete.StrListDel: takes the numbers that strtol made of the texts. ListDelete.ObjListDel does too, and works on values, where the code frees an entry twice if an index is repeated.
- SubConfig.Parse: models strtol with a 32-bit long; the counted form is legal up to that length.
- FindSub.Finder.Find: recoding and the OSD calls are left out, and setting the subtitle is assigning it. Tables are sorted and disjoint, with times from 1 to the largest int.
- FindSub.Finder.Step: computes over reals; rounding of floats is not modelled, and the key must fit an int, as the conversion demands.
- FrameSync.Encoder.EncodeFrame: leaves out 3-pass control files, audio encoding and frame limits, among them an end position that shortens audio chunks; a frame that is to be skipped writes no chunk, the filters emit at most one frame for an input frame, and the flush of the frames that the encoder holds after the last frame is not modelled.
- Edl.Player.DoFrame: takes the outcomes of its seeks as a finite list; with the list used up it ends the frame as at the end of the file. The doubly linked list is a sequence of records.
- CodecTable.AddToFourcc: requires the four characters of each group it reads to be there, as the code does.
- NameList.FillSlots: the numbers of the formats are a parameter.
- SubSource.Context.StepByType: leaves out what selecting a subtitle does to the decoders, the SET and PRINT actions, and the extra steps on DVD streams.
- The key ring buffer of `mp_fifo.c`: a bounded queue of key codes that no modelled part reads; its double-click timing depends on a clock.
- `asxparser.c`, demuxers, muxers, codecs, filters, sockets, DRM, input devices, OSD and the option tables.
