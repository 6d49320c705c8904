# edav, verified

A Dafny model of the parts of edav, a CalDAV and CardDAV server, where a mistake would lose or corrupt a client's data, with proofs about them. `dafny verify dfyconfig.toml` checks all of it.

- **The content-line editor.** vCard and iCalendar bytes are parsed into logical lines, a few properties are edited in place, and everything else is written back byte for byte. Modelled as the class `Documents.Document` over a sequence of lines, with the span of a component moving along as a `SpanVar`, and as the pure functions its methods refine. On top of it: editing a card (`Cards`, `SetAll`, `Misses`, `Contacts`), through its bytes and back (`CardBytes`), and editing an event (`Events`, `Durations`).
- **Synchronisation.** Collections log one row per name and count their changes; a client pulls with a token while writers interleave. Modelled as the class `Storage.Database`, whose methods are transactions, and as a transition system (`Sync`) in which the separate reads of one request can be interleaved with any writes.
- **Recurrence and its index.** A windowed, capped expansion against everything-then-filter, the bounds stored on write, the query that narrows by them, and the offsets of a zone that an object defines itself (`Recurrence`, `Query`, `Timezones`).
- **The XML token reader.** A nested stateful reader, the writer and the decoder of the same tree (`RawXml`).
- **Literal search** through a SQL LIKE pattern (`Like`).

Octets are the characters of a Dafny `string`. Times are integers: seconds in recurrence and zones, nanoseconds in events. Upper-casing is ASCII. SHA-256 is an injective function, a recurrence set is a rising sequence of wall times, a zone is a function from wall times to instants, and a decoder is a function from bytes to a calendar or nothing.

## Where the code and its words part

The model follows the code. Each of these is proved.

- The comment on `Bytes` says that untouched lines come back exactly as they were read; a last line without a terminator gains one (`RoundTrip.ParseIsLossless`).
- `fold` loops forever on a line with a whole window of continuation octets and more behind it, and on no other (`Folding.FoldTerminatesExactly`, `Folding.FoldCanStall`).
- A group that begins with a blank turns a rewritten line into a fold of the line before it (`RoundTrip.WriteThenRead`). Such a group can be read from bytes (`RoundTrip.BlankGroupIsRead`).
- `Remove` compacts the array that `contains` goes on reading. It is a filter when the component nests nothing (`Frame.RemoveIsFilter`); in general it drops the group's lines if and only if no bracket is read twice with an effect (`Edits.RemoveGroupExact`), and `Edits.EchoKeepsLine` is a component where one is.
- `SetAll` says it goes from the end so that the indices hold. They hold where no line of a dropped group stands at or before an earlier occurrence that is dropped (`SetAll.HeadsAreHit`); then what was asked for is left if and only if the first occurrence dropped shares its group with none that is kept (`SetAll.DropExact`). Otherwise a removal falls on another line. Two occurrences that are dropped together never come out as asked, unless the spare removal falls on a grouped line behind the component (`Misses.PairMisses`, `Misses.PairNeverDropped`); it can take the END line (`Misses.PairTakesEnd`), as a label before a number can make it do (`Misses.LabelTakesEnd`), or run past the end of the document (`SetAll.GroupedTwiceIsLost`).
- An occurrence that has the wanted type among others is left alone, and the form goes on showing another of them; no type never clears one. So what `Values` then reads is what was set if and only if every line that had its wanted type showed it (`Cards.KindShown`, `Cards.SecondTypeStays`, `SetAll.SetAllThenValues`, `Contacts.ApplyThenReadExact`).
- `Expand` files overrides by instant and looks occurrences up by wall time, or by the zero time for an event that does not recur. It returns what it should if and only if both keys agree on what it reaches (`Recurrence.ExpandExact`). So an override need not replace the occurrence it names: in a zone other than UTC (`Recurrence.ExactForUtcOnly`), and in any zone for an event that does not recur (`Recurrence.PlainExact`, `Recurrence.MovedEventStays`).
- The prefilter is said to keep every object that could overlap. It hides an object whose bounds end exactly where an instance without length begins, one whose endless rule starts later than an override of it, and one without a master whose first override is elsewhere (`Query.HiddenExactly`, `Query.HoldsByKind`, `Query.FirstMustCover`; inputs for the three are `Query.PointHidden`, `Query.EarlierOverrideHidden` and `Query.SecondOverrideHidden`).
- A sync with a limit carries the collection's newest token, against section 3.6 of RFC 6578, so a client can rely on it if and only if everything fitted (`Sync.LimitExact`).
- `offsetAt` takes a transition at the zero time for none. That matters only before the zero time, and only where another transition is found last and comes from another offset (`Timezones.SearchExact`, `Timezones.ZeroIsForgotten`).
- The comment in `offsetAt` says that three years back always suffice. They do in a zone that goes on (`Timezones.WindowSuffices`); a rule that fell for the last time before them is missed, and an earlier block answers (`Timezones.EndedRuleIsMissed`).

## Model

| member | source | states |
|---|---|---|
| Lines.NextLogicalLine | internal/contentline/lines.go:7-41 | text, terminator and remainder put together are the input; every break inside the text is a fold; the terminator is not followed by a blank or split from its line feed |
| Lines.LogicalLineUnique | internal/contentline/lines.go:7-41 | those conditions determine the split: whatever text, terminator and remainder meet them are the ones the scan finds |
| Lines.UnfoldText | internal/contentline/lines.go:45-69 | the index loop computes the pure unfolding, which holds no break |
| Lines.UnfoldFolded | internal/contentline/lines.go:45-69 | any of the three terminators and the one blank behind it, a space or a tab, leave no trace, and what stands before them is kept |
| Lines.SplitContentLine | internal/contentline/lines.go:73-103 | of the colons with an even number of quotation marks before them the first ends the head: what is behind it is the value, the parameters begin at the first semicolon of the head, the group ends at the first dot before that, and the name is in capitals; without such a colon all of it is the name |
| Lines.ColonIsFirstFree | internal/contentline/lines.go:71-89 | the colon found has an even number of quotation marks before it, and no colon before it has; none is found when there is none |
| Lines.SplitRebuild | internal/contentline/contentline.go:325-336 | a line rebuilt from readable parts splits into those parts again, for every value |
| Lines.ReadLinesAreReadable | internal/contentline/lines.go:73-103 | every line read under a plain property name is readable: upper-casing the name and dropping an empty group never move the colon |
| Escaping.UnescapeValue | internal/contentline/lines.go:189-209 | the scan, with its shortcut for text without a backslash, computes the pure unescaping |
| Escaping.UnescapeReads | internal/contentline/lines.go:189-209 | however a text is spelled, with octets that stand for themselves and octets behind a backslash, it reads as what they mean: a line feed for an n in either case, and anything else as itself; a backslash at the end stays |
| Escaping.UnescapeEscape | internal/contentline/lines.go:169-209 | unescaping undoes escaping but for carriage returns, for every text |
| Escaping.EscapeHasNoBreak | internal/contentline/lines.go:169-177 | an escaped value never holds a line break |
| Escaping.EscapedAs | internal/contentline/lines.go:169-177 | each octet of a text is escaped by itself wherever it stands: backslash, comma and semicolon behind a backslash, a line feed as an n behind one, a carriage return as nothing |
| Escaping.SplitStructuredValue | internal/contentline/lines.go:212-235 | the loop computes the pure splitting into fields |
| Escaping.SplitReads | internal/contentline/lines.go:212-235 | a value is cut at just those semicolons that are not behind a backslash, and each field reads as it is spelled |
| Escaping.SplitJoin | internal/contentline/lines.go:212-235 | fields that are escaped and joined by semicolons come back as they were, carriage returns aside, whatever they hold |
| Folding.FoldLine | internal/contentline/lines.go:108-139 | on a line where it advances the loop ends; a line of up to 75 octets is left whole, and each physical line of a longer one is as long as it can be: 75 octets with the blank that continues it, less what it takes not to begin the next inside a UTF-8 sequence |
| Folding.FoldedLine | internal/contentline/lines.go:108-139 | a folded line unfolds to itself, has no physical line over 75 octets, and begins none inside a UTF-8 sequence |
| Folding.Utf8Advances | internal/contentline/lines.go:125-136 | on valid UTF-8 every cut lies strictly behind the one before it, so folding ends |
| Folding.FoldTerminatesExactly | internal/contentline/lines.go:125-136 | on any octets at all, folding ends if and only if no window with more behind it is continuation octets throughout |
| Folding.FoldCanStall | internal/contentline/lines.go:125-127 | a line of 76 octets on which folding never ends |
| Documents.Document.Parse | internal/contentline/contentline.go:38-54 | the document holds the logical lines of the bytes, none of them edited, and the parts of each are what its unfolded text says in the sense of `SplitContentLine` |
| Documents.Document.Bytes | internal/contentline/contentline.go:58-74 | untouched lines are written as they were read, edited ones rebuilt and folded, each with its terminator or the document's |
| Documents.Document.EOL | internal/contentline/contentline.go:78-85 | the first terminator that is not missing, and CRLF when all are |
| Documents.Document.Components | internal/contentline/contentline.go:109-137 | the stack scan returns exactly the BEGIN and END pairs that match by depth and carry the name, in the order they open |
| Documents.Document.Component | internal/contentline/contentline.go:100-106 | the one that opens first, or none when there is none |
| Documents.Document.DirectlyInside | internal/contentline/contentline.go:141-156 | the counting loop decides direct membership |
| Documents.Document.Find | internal/contentline/contentline.go:160-168 | the first line of this name that belongs to the component directly |
| Documents.Document.FindAll | internal/contentline/contentline.go:171-181 | all of them, in order |
| Documents.Document.Value | internal/contentline/contentline.go:184-190 | the unescaped value of the first, empty when absent |
| Documents.Document.Write | internal/contentline/contentline.go:233-257 | lines and span after a write are those of the pure edit, for each of its branches |
| Documents.WriteOver | internal/contentline/contentline.go:233-246 | a text written over a line leaves its place, group and name, and its parameters unless new ones are given; every other line is as it was |
| Documents.WriteAnew | internal/contentline/contentline.go:247-257 | where no line has the name a text is added just before the END, in no group and under the name in capitals, and nothing is added for no text |
| Documents.Document.Insert | internal/contentline/contentline.go:260-271 | the new line stands just before the END, which moves down by one |
| Documents.Document.Remove | internal/contentline/contentline.go:277-296 | lines and span after a removal are those of the pure one, the compaction of a group included |
| Documents.Document.Replace | internal/contentline/contentline.go:319-323 | one line gets new parameters and value and no other line changes |
| Documents.CompactInPlace | internal/contentline/contentline.go:285-295 | the loop over the shared array keeps what the pure compaction keeps, though its predicate reads cells already overwritten |
| Deletion.Delete | internal/contentline/contentline.go:299-308 | the loop ends whatever the groups and nesting, leaves no line of the name in the component, and keeps the frame where the groups of the name's lines are in scope and stand before anything nested |
| Brackets.NestedOrApart | internal/contentline/contentline.go:109-137 | of two matched pairs one encloses the other or they are apart |
| Brackets.ContainsIff | internal/contentline/contentline.go:139-156 | the depth counter says that a line belongs to a component directly exactly when no matched pair nested in it has opened before the line and not closed before it |
| Edits.RemoveGroupExact | internal/contentline/contentline.go:284-293 | removing a group in place drops exactly the group's direct lines if and only if no line is read twice with an effect, whatever the group's lines are |
| Edits.EchoKeepsLine | internal/contentline/contentline.go:284-293 | two lines of a group around a nested component: the second stays |
| Frame.RemoveIsFilter | internal/contentline/contentline.go:277-296 | in a component that nests nothing removal is a filter by group that keeps all order and lowers the END by the number dropped |
| Frame.SetIsInside | internal/contentline/contentline.go:233-257 | a write changes nothing before the component's BEGIN or behind its END |
| Frame.RunKeeps | internal/contentline/contentline.go:211-323 | after any run of writes, insertions and rewrites within a scope of names, every line out of scope is as it was and in its order, nested components included; a line that is only rewritten may be in any group, and one that is removed takes a group in scope along that has no echo |
| Frame.SpanStays | internal/contentline/contentline.go:87-95 | after any such run the span still names the same BEGIN and END lines and they still match |
| Frame.RunKeepsBytes | internal/contentline/contentline.go:56-74 | the same in bytes: what stands before and behind the component comes back octet for octet, and so does every line out of scope inside it |
| Properties.PutOwn | internal/contentline/contentline.go:211-257 | a write changes the first line of its name, adds one where there is none, or takes the first away and with it the lines of its group |
| Properties.PutOther | internal/contentline/contentline.go:211-257 | and takes of every other name just the lines of that group, none where no group goes |
| RoundTrip.ParseIsLossless | internal/contentline/contentline.go:38-74 | parsing and writing gives every byte string back, or the string and one terminator when its last line has none |
| RoundTrip.SetThenValue | internal/contentline/contentline.go:211-257 | the value written is found under its name, on the line that was there or before the END |
| RoundTrip.WriteThenRead | internal/contentline/contentline.go:211-216 | after a write, parsing the bytes gives the lines back one by one if and only if the rewritten line does not begin with a blank, and then finds the same component with the value that was written |
| RoundTrip.BlankGroupIsRead | internal/contentline/lines.go:7-69 | every group that begins with a blank can be read from bytes: behind an empty line, a break and a blank |
| RoundTrip.Utf8IsWritable | internal/contentline/contentline.go:56-74 | a UTF-8 value can always be written |
| Params.ReadParams | internal/contentline/lines.go:154-166 | the loop gives the values of all parameters of a name, in order |
| Params.ReadsAll | internal/contentline/lines.go:154-166 | of any list of parameters the values of exactly those that carry the name, in whatever case and whatever stands between them, in order and without their quotation marks |
| Params.SingleValue | internal/contentline/lines.go:154-166 | a value without separators or outer quotes reads back as it was written |
| Cards.Card.Open | internal/vcard/edit.go:25-39 | opens the first VCARD that says its version, and refuses bytes without one |
| Cards.Card.Values | internal/vcard/edit.go:57-67 | the value and shown type of every line of the name, in order |
| Cards.TypesRead | internal/vcard/edit.go:147-155 | a line has a type if and only if one of its parameters named TYPE, in any case, holds it, in any case and quoted or not |
| Cards.ShownIsFirstKnown | internal/vcard/edit.go:130-143 | the type shown is the first of cell, home, work and other that the line has, or else the first it has, in small letters |
| Cards.Card.SetAll | internal/vcard/edit.go:87-117 | the document after both loops is that of the pure edit; it fails just where an index would run past the end |
| Cards.TypeReads | internal/vcard/edit.go:147-164 | a written type is found again if and only if it needs no quoting |
| Cards.TypeIsShown | internal/vcard/edit.go:130-143 | and is the type the form then shows, where it was written |
| Cards.KindShown | internal/vcard/edit.go:91-110 | the line once set shows the type that was asked for if and only if, had it that type already, it showed it |
| Cards.SecondTypeStays | internal/vcard/edit.go:91-110 | a line with two types the form knows, asked for the second, stays as it is and goes on showing the first |
| Cards.FirstTypeStays | internal/vcard/edit.go:87-111 | a line whose first type is a known one shows it, and asked for it stays as it is, with every type behind it |
| Cards.ThreeTypesStay | internal/vcard/edit.go:87-111 | so does a line with the parameters `;type=CELL;type=VOICE;type=pref`, asked for cell |
| Cards.RewrittenIs | internal/vcard/edit.go:91-110 | a line that has the type keeps all its parameters, whatever becomes of its value, and another one gets the type alone; the value is written anew just when it would not read as the one wanted or the type is new |
| SetAll.SetAllThenValues | internal/vcard/edit.go:57-117 | where each removal hits the line it is meant for, the property then reads as it was set if and only if the first line dropped shares its group with none kept: as many values as given, each reading back unless it holds a carriage return, each clean type as `KindShown` says; an occurrence that is unchanged keeps its line, one of the same type its parameters, and all else in the card its bytes and place |
| SetAll.ReadsBackExact | internal/vcard/edit.go:57-117 | for values without carriage returns and lower-case types without quoting, what is read is exactly the list that was set if and only if each line that had its type showed it |
| SetAll.HeadsAreHit | internal/vcard/edit.go:113-116 | any number of removals hit the lines they are meant for when no group dropped has a line at or before an earlier occurrence |
| SetAll.DropExact | internal/vcard/edit.go:113-116 | dropping any number of occurrences with their groups leaves what was asked for if and only if the first of them shares its group with none that is kept |
| SetAll.GroupedTwiceIsLost | internal/vcard/edit.go:113-116 | three numbers in one group: asked to keep the first, the editor runs past the end of the document |
| Misses.PairExact | internal/vcard/edit.go:113-116 | in a component that nests nothing, dropping exactly two occurrences of one group comes to what was asked for, and then one more removal at the place of the first |
| Misses.PairMisses | internal/vcard/edit.go:113-116 | so it leaves what was asked for if and only if that place is a grouped line behind the component, in a group no line left in it has |
| Misses.PairNeverDropped | internal/vcard/edit.go:113-116 | and never where nothing from the END on is grouped |
| Misses.PairTakesEnd | internal/vcard/edit.go:113-116 | two numbers of one group, both to go: the END of the card goes with them and no failure is reported |
| Misses.LabelTakesEnd | internal/vcard/edit.go:113-116 | a label, a number in no group, and the label's number, all to go: the ungrouped number stays and the END goes |
| Contacts.NameReads | internal/vcard/contact.go:148-153 | a structured name splits into its two parts and three empty ones |
| Contacts.CalledByParts | internal/vcard/contact.go:139-146 | without a formatted name a contact is called by its given name and then its family name, without the white space around the two |
| Contacts.CalledByBoth | internal/vcard/contact.go:139-146 | by the two with a space between them, or by the one there is, when neither has white space at its ends |
| Contacts.OrganisationValue | internal/vcard/contact.go:156-169 | the loop writes the organisation and every later field of the value there was |
| Contacts.OrganisationReads | internal/vcard/contact.go:155-169 | the first field reads back as given and every department as it was |
| Contacts.KeepNonEmpty | internal/vcard/contact.go:179-187 | the entries whose value is not blank, in order |
| Contacts.BlankOnesGo | internal/vcard/contact.go:179-187 | whatever stands around it, an entry goes if and only if its value is nothing but white space, and the others keep their order |
| Contacts.Apply | internal/vcard/contact.go:68-93 | refuses a contact just when all three of its names are nothing but white space, and changes nothing then; otherwise the card is that of the nine edits |
| Contacts.ContactApplied | internal/vcard/contact.go:66-93 | on a card whose lines of the nine names share no group, those edits keep the rest of the card but for the lines in a group with one that was removed, and the lines of each name are what its own edit makes of them |
| Contacts.RawIsWritten | internal/vcard/contact.go:77-90 | a written text is found again if and only if it is not empty, or its removal leaves no other occurrence with a value |
| Contacts.ContactIsWritten | internal/vcard/contact.go:77-90 | what N, TITLE, NOTE, URL and REV then say: the family name before the given one and three empty parts, and each text escaped |
| Contacts.ShownNameIsWritten | internal/vcard/contact.go:139-177 | FN says the formatted name, and without one the given name, a space and the family name |
| Contacts.ApplyThenRead | internal/vcard/contact.go:34-93 | the contact read from the card is the contact applied to it, grouped properties included, where no text that is cleared uncovers another; of each number and address the value reads back, and the type if and only if the line, if it had the type, showed it |
| Contacts.ApplyThenReadExact | internal/vcard/contact.go:34-93 | it is that contact to the letter if and only if no line that has its wanted type shows another |
| Contacts.FlatCardIsReady | internal/contentline/contentline.go:273-296 | a card that nests nothing is ready for any contact when no two of its nine properties' lines share a group and no group of a number or address reaches back to or before an earlier one |
| CardBytes.ContactThroughBytes | internal/vcard/contact.go:34-93 | a contact applied to stored bytes of one line ending, whose groups begin with no blank and hold no quotation mark, and written out: the bytes read as the edited lines one by one, the card is the first one again, and the contact in it is that of the edited lines |
| CardBytes.ReadFromBytesExact | internal/vcard/contact.go:34-93 | so the contact read from the written bytes is the contact applied, to the letter, if and only if no line that has its wanted type shows another |
| CardBytes.VersionStays | internal/vcard/edit.go:25-39 | and the bytes can be opened again: they say the version they said |
| Durations.FormatDuration | internal/ical/event.go:303-332 | the running division writes the days, hours, minutes and seconds of the duration |
| Durations.ParseDurationText | internal/ical/event.go:334-386 | the loop reads what the pure reading reads, refusals included |
| Durations.DurationTextReads | internal/ical/event.go:334-386 | white space, signs, a P, counts with their units and digits without one: it reads as what the counts come to with each unit of its own size, less than nothing when the first sign is a minus, and not at all when a count is empty or its unit is none |
| Durations.WeeksRead | internal/ical/event.go:363-364 | a number of weeks reads as seven days each |
| Durations.DurationIsSpelled | internal/ical/event.go:303-332 | a duration is written as its whole days, hours, minutes and seconds, each left out when it is zero, with a T before the time when there is any |
| Durations.TrimSpaceExactly | internal/ical/event.go:334-345 | trimming takes white space off both ends and nothing else, and leaves nothing just of what is all white space |
| Durations.DurationReads | internal/ical/event.go:303-386 | every duration's text reads as the duration without its fraction of a second, zero when it is not positive |
| Durations.DurationRoundTrip | internal/ical/event.go:303-386 | formatting and parsing gives a duration back if and only if it is a whole number of seconds and not negative |
| Events.CalendarObject.Open | internal/ical/event.go:55-69 | opens the first VEVENT of bytes that hold a VCALENDAR and a VEVENT, and no others |
| Events.CalendarObject.Apply | internal/ical/event.go:158-188 | refuses an event just when its title is all white space, it has no start, it ends before it starts, or it is timed in an unknown zone, and changes nothing then; otherwise the object is that of the writes |
| Events.CalendarObject.BumpSequence | internal/ical/event.go:192-201 | writes the number that follows the one there was |
| Events.AppliedIsRun | internal/ical/event.go:158-188 | applying an event is a run of eight writes that depend on the object as it was |
| Events.ApplyKeepsTheRest | internal/ical/event.go:153-188 | every line but those of the form's names, and those in a group with one that was removed, keeps its text and place, and of each name that shares no group with the form's exactly the writes addressed to it take effect |
| Events.ApplyKeepsBytes | internal/ical/event.go:153-188 | the same in bytes, other events, alarms and overrides included |
| Events.OtherNamesKept | internal/ical/event.go:156-157 | the lines of every name the form does not write and shares no group with, a recurrence rule and its exceptions among them, are as they were |
| Events.UngroupedIsReady | internal/ical/event.go:153-188 | an event none of whose form properties is in a group can be edited whatever is nested in it and whatever the form leaves empty |
| Events.SequenceSupersedes | internal/ical/event.go:190-201 | where the object carried a number, one more than it is then read from its SEQUENCE, and one where it carried none |
| Events.ScansExactly | internal/ical/event.go:192-201 | the number a text carries: white space that ends no line, a sign or none, digits, and anything behind them; no other text carries one |
| Events.DurationShapeKept | internal/ical/event.go:172-180 | an event sized by DURATION still is, and that property reads as the length asked for |
| Events.EventIsWritten | internal/ical/event.go:158-188 | the title, the start and the end then read as the event has them: as a date, in its zone with the zone named, or in UTC; and both stamps as now |
| Events.PlaceIsWritten | internal/ical/event.go:164-165 | the place then reads as the event has it |
| Events.DescriptionIsWritten | internal/ical/event.go:164-165 | and so does the description |
| Events.TextShown | internal/ical/event.go:163-170 | summary, location and description read as given if and only if the text is not empty or its removal uncovers no other one |
| Storage.Database.PutObject | internal/storage/objects.go:76-134 | new, changed and unchanged bytes and an unknown collection are told apart; a change stores the bytes, their hash and their bounds, moves the collection's position and ctag by one, and leaves one row for the name, the newest, which says updated just when the name was there |
| Storage.Database.DeleteObject | internal/storage/objects.go:249-272 | fails just when the name or the collection is unknown; otherwise the object is gone and the newest row says so |
| Storage.Database.RecordChange | internal/storage/objects.go:322-348 | the position advances by one, the name's old row goes and its new one stands last |
| Storage.Database.ChangesSince | internal/storage/objects.go:289-316 | the rows of the collection behind a position, oldest first, and where it stands |
| Storage.RewriteIsNoChange | internal/storage/objects.go:72-92 | writing an object leaves the tables alone if and only if it has those bytes already, and any other write moves the position by one |
| Storage.RunIsValid | internal/storage/objects.go:279-288 | in every reachable state rows ascend, the newest carries the collection's position and ctag, each name ever held has exactly one row, and a row says deleted exactly when the object is absent |
| Storage.OthersUntouched | internal/storage/objects.go:318-348 | a write to one collection changes nothing of another |
| Storage.RowsOrdered | internal/storage/objects.go:289-316 | the rows come by rising position, each name once |
| Like.SearchIsLiteral | internal/storage/objects.go:204-210 | the pattern matches a text if and only if the query occurs in it, ASCII case aside, for every query |
| Sync.DecodeEncode | internal/dav/sync.go:32-57 | a token given out is understood if and only if it is not ahead of the collection |
| Sync.DecodesExactly | internal/dav/sync.go:38-57 | a token is understood as a position if and only if it is empty and that is zero, or it is the prefix and a numeral of 64 bits, with or without a sign, for a position that is neither negative nor ahead of the collection |
| Sync.Refused | internal/dav/sync.go:38-57 | a token with another prefix is refused, and one whose rest is no number, is negative or is ahead |
| Sync.ForeignTokens | internal/dav/sync.go:43-55 | another server's token, one with words for a number, with nothing and with a negative number are refused |
| Sync.CollectSync | internal/dav/sync.go:70-98 | a token is refused if and only if it means no position; else the loop gathers one entry per row behind that position up to the limit, under the collection's newest token |
| Sync.Converges | internal/dav/sync.go:70-98 | in every run, however writes, requests and failures interleave, each name about which client and collection differ has a change logged behind the client's token |
| Sync.CurrentIsEqual | internal/dav/sync.go:60-98 | a client whose token is current holds exactly what the collection holds |
| Sync.TokenIsAccepted | internal/dav/sync.go:38-57 | no token the collection gave out is ever refused |
| Sync.QuietSyncEqualises | internal/dav/sync.go:70-98 | a sync with no write in between gathers what one look would, and without a limit leaves client and collection equal |
| Sync.LimitExact | internal/dav/sync.go:81-85 | a limited answer keeps every client right if and only if all rows fitted |
| Recurrence.ExpandMaster | internal/recurrence/expand.go:215-262 | iterating between widened wall clock bounds gives just the instances that meet the range: of an event that recurs one for each of its first ten thousand wall times, which starts when that is in the zone, lasts as long as the event and goes by the wall time |
| Recurrence.Expand | internal/recurrence/expand.go:62-115 | sorted by start, without repeats, and exactly: what comes of the event by itself and meets the range, where no override is filed under its id, and the last override of each id where it meets the range |
| Recurrence.ReturnedIsTrue | internal/recurrence/expand.go:62-115 | whatever the cap, what is returned overlaps, and is a true instance if and only if it is an override or none names the instant it starts at |
| Recurrence.CapExact | internal/recurrence/expand.go:239-260 | the result is everything-then-filter if and only if filing and lookup key agree on what is reached and nothing that overlaps lies beyond the cap |
| Recurrence.ExpandExact | internal/recurrence/expand.go:59-115 | where the iteration ends before its cap, it is so if and only if the two keys agree on which of the overlapping occurrences are overridden |
| Recurrence.PlainExact | internal/recurrence/expand.go:215-230 | for an event that does not recur, it is so if and only if an override names its start just when one names the zero time |
| Recurrence.MovedEventStays | internal/recurrence/expand.go:92-104 | such an event is returned at its old time although an override moved it, in every zone |
| Recurrence.ExactForUtcOnly | internal/recurrence/expand.go:73-83 | it is so for every series of a zone if and only if the zone's wall times are its instants |
| Recurrence.MovedOccurrenceStays | internal/recurrence/expand.go:73-104 | in any other zone, an occurrence that is returned although an override moved it away |
| Recurrence.Bounds.Widen | internal/recurrence/expand.go:204-213 | the bounds grow to take one instance in |
| Recurrence.Summarise | internal/recurrence/expand.go:130-202 | without a master the first override, of a rule that goes on its first start and no end, and otherwise the first of all starts and the last of all ends, those of each occurrence and override among them |
| Recurrence.SummaryCovers | internal/recurrence/expand.go:127-213 | the bounds of an object whose rule ends cover each of its instances |
| Query.HiddenExactly | internal/storage/objects.go:172-179 | just when the index hides an object that has an instance in the range, for each kind of object, without a master too |
| Query.NeverHiddenExactly | internal/storage/objects.go:172-179 | no range hides an object if and only if its bounds hold each instance the expansion yields of it |
| Query.HoldsByKind | internal/recurrence/expand.go:130-202 | which instances the bounds hold: of a rule that ends all but one without length at their end, of an endless one those not before its first occurrence, without a master those within the first override |
| Query.FirstMustCover | internal/recurrence/expand.go:137-163 | without a master, no range hides the object if and only if every override that counts lies within the first |
| Query.OccursInRange | internal/dav/caldav.go:447-453 | an object is confirmed if and only if it decodes and an instance is expected in the range, in the sense of `Recurrence.Expand` |
| Query.KeepMatching | internal/dav/caldav.go:189-201 | the filter over the array's own cells keeps the matching objects in order |
| Query.QueryCalendarObjects | internal/dav/caldav.go:170-202 | the answer is the matching ones of those the index lists |
| Query.AnswerKeeps | internal/dav/caldav.go:189-201 | whatever objects are before and behind it, an object is in the answer if and only if it decodes and has an instance in the range, and all keep their order |
| Query.NarrowingExact | internal/dav/caldav.go:181-202 | narrowing changes the answer if and only if it hides a match |
| Query.IndexHidesNothing | internal/dav/caldav.go:181-206 | where the bounds of each matching object reach what it yields, but for instances without length exactly where the range begins, the answer is that of expanding every object stored |
| Query.EndingAtFromReaches | internal/storage/objects.go:172-179 | an object that ends just where the range begins is no exception, as long as none of it is without length there |
| Query.RunIsIndexed | internal/storage/objects.go:76-134 | where every write brings the bounds of its bytes, every object has them in every reachable state, rewrites with the same bytes included |
| Query.QueryAfterRun | internal/dav/caldav.go:181-206 | so in every reachable state a ranged query answers as if it had expanded every object stored |
| Query.SecondOverrideHidden | internal/recurrence/expand.go:137-163 | without a master the second override can be hidden |
| Query.EarlierOverrideHidden | internal/recurrence/expand.go:181-184 | a series without end is hidden where an override moved its first occurrence to long before it |
| Query.PointHidden | internal/storage/objects.go:172-179 | an event without length is hidden from a range that begins with it |
| Timezones.OffsetAt | internal/recurrence/timezone.go:159-210 | the offset answers for the instant by the transitions in the window, and where the zone goes on by all of them; before them all it is the one the first of the earliest comes from, and where a transition at the zero time is forgotten the one before the next |
| Timezones.OneBlock | internal/recurrence/timezone.go:159-210 | by a block without a rule one offset is in force until its clocks show when the block begins, and the other from then on |
| Timezones.SearchExact | internal/recurrence/timezone.go:171-210 | what the search gives answers for the instant if and only if it is not before a forgotten zero time that another transition comes from another offset than |
| Timezones.EarliestIsFirst | internal/recurrence/timezone.go:171-178 | where none is at the zero time, of several transitions that fall together first the one found first counts |
| Timezones.SearchIsRight | internal/recurrence/timezone.go:171-178 | which never is so from the zero time on, nor in a zone without a transition at it |
| Timezones.WindowSuffices | internal/recurrence/timezone.go:165-168 | it is the one that all transitions answer, in a zone that goes on |
| Timezones.RecurringIsSteady | internal/recurrence/timezone.go:165-168 | a zone goes on when each of its rules recurs within the window |
| Timezones.EndedRuleIsMissed | internal/recurrence/timezone.go:165-168 | a rule that fell for the last time before the window: the offset found is that of the block that started before it, and not the one in force |
| Timezones.ZeroIsForgotten | internal/recurrence/timezone.go:171-178 | for a zone whose first of two blocks starts at the zero time, every earlier instant gets the offset the second block ends, and not its own |
| Timezones.EmbeddedOffset | internal/recurrence/timezone.go:144-155 | the offset is that of two passes of the search, whatever the transitions |
| Timezones.ToUTC | internal/recurrence/timezone.go:130-137 | the instant lies that offset behind the wall time |
| Timezones.TwoPassesAgree | internal/recurrence/timezone.go:139-155 | the offset the two passes return is the one a search gives for the instant it leads to, unless the zone changes between the instants of the passes |
| Timezones.TwoPassesSuffice | internal/recurrence/timezone.go:139-155 | around one change, the instant arrived at shows the wall time if and only if any instant does |
| Timezones.EmbeddedIsDefinite | internal/recurrence/timezone.go:144-155 | what the two passes return is the offset that theorem speaks of |
| RawXml.Reader.Token | internal/dav/internal/xml.go:114-146 | the next token of the flattened tree, and none at its end and forever after |
| RawXml.ReadAll | internal/dav/internal/xml.go:114-146 | call after call a reader gives the whole flattening and then ends |
| RawXml.MarshalXML | internal/dav/internal/xml.go:61-83 | writes the tokens in the order a reader replays them |
| RawXml.UnmarshalXML | internal/dav/internal/xml.go:35-58 | builds the tree of the stream up to the element's end and leaves the rest, or fails where there is none |
| RawXml.ReadsExactly | internal/dav/internal/xml.go:35-58 | a stream reads as some children and a rest if and only if it is their flattening, the end and the rest |
| RawXml.ReplayReadsBack | internal/dav/internal/xml.go:35-146 | what a reader replays is read back as the same tree, and nothing beyond it is consumed |

## Left out

- HTTP, PROPFIND and multistatus assembly, the admin pages, sessions, passwords, paths and configuration: plumbing and interface, or single-map code.
- Storage.Database: SQLite itself; a transaction is one step, its failures other than an unknown collection or name are not modelled, and of an object's columns only bytes, hash and bounds are.
- Sync.Converges: deleting a collection and making it anew; it holds for requests without a limit, and `Sync.LimitExact` says what a limit does.
- The check behind If-Match and the write that follows it are two steps in the code, which promises nothing between them.
- Documents.Document.Bytes: called only where every edited line can be folded to an end, since elsewhere the code never returns.
- Documents.Document.Remove: the compaction runs on a fresh array with the document's lines rather than on the document's own.
- Cards.Card.SetAll: a removal at an index past the end is a failure here; the code panics.
- Contacts.ContactApplied: a card two of whose lines of the nine names share a group, and one whose groups stand behind something nested; `Properties.PutOwn`, `Properties.PutOther` and `SetAll.DropExact` say what one edit does there, but the nine in turn are not followed.
- Events.ApplyKeepsTheRest: likewise for an event two of whose form lines share a group.
- SetAll.SetAllThenValues: removals that no longer hit the line they are meant for; `Misses` follows two occurrences dropped together, not any number of them.
- Recurrence.ExpandMaster: an embedded zone with offsets beyond the 26 hours the code allows for; and a set that repeats a wall time: the library that makes the sets merges equal dates.
- CardBytes.ContactThroughBytes: cards whose edited lines cannot be folded to an end; `Folding.FoldTerminatesExactly` says which those are.
- Recurrence.Expand: objects with a time or zone that cannot be read are objects that do not decode; the reading of properties into a calendar is the libraries' and is not part of this model.
- Query.QueryCalendarObjects: queries without a range, and the property filters applied behind the ranged one.
- Timezones.ToUTC: names that the IANA database knows, and the reading of offsets and rules from an object.
- RawXml.MarshalXML: values that wrap another encoder's output, and namespace handling inside encoders and decoders.
- Durations.ParseDurationText: 64-bit overflow of counts and totals; Unicode white space beyond ASCII.
- Events.CalendarObject.Apply: calendar arithmetic and printing of times, which come from outside, and sequence numbers beyond 64 bits.
- New objects, random identifiers and file names: straight-line text assembly over the same edits.
- Unicode case mapping: names and types are compared by ASCII case.
