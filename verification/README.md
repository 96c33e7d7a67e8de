# Leapdesk verification

A Dafny model of the algorithms of Leapdesk, a program that shares one mouse and keyboard between
computers, with proofs of what they promise. Loops and objects that the program changes in place are
methods and classes here, each proved against a function of its inputs or of its old state; the
properties are lemmas about those functions.

- **Text encodings** (`Utf8`, `Utf16`, `Ucs4`). UTF-8 in the six-octet form of section 2 of RFC 2279,
  UTF-16 as in sections 2.1 and 2.2 of RFC 2781, and 32-bit words, with the decoder's recovery from
  truncated sequences. The main results say exactly which texts are valid and exactly which texts
  survive a conversion and back.
- **Events** (`EventQueue`, `Timers`, `TimerRuns`). The table of saved events, its free list and the
  buffer of ids refine a plain first-in, first-out queue over every run; nothing is lost or duplicated
  but what the buffer refuses or `set_buffer` discards. Timers count down relative times in place and
  still respect absolute deadlines, in every run under a clock that does not run backwards.
- **Command lines** (`ArgParser`). Splitting command lines, assembled or written by hand, with the quote
  search that starts over after it fails.
- **The client** (`ServerProxy`, `Client`). Compressing mouse motion between input events: what a whole
  session is to show, and the exact motion that is lost when the two kinds are mixed; the connection's
  phases and the calls on the screen over every run of events.
- **Screen layout** (`ScreenLinks`, `ScreenLayout`, `LegacyGrid`). Placing linked screens breadth-first
  over real geometry, which leaves one possible drawing, and the links imported from the grid of older
  settings.
- **Codecs** (`FileClips`, `Clipboards`, `KeyDestinations`, and `KeySequences`, `Actions`, `Hotkeys`,
  `HotkeyLimits`).
  `BigEndian`, `Texts` and `Options` are what they share.

Where the code does not do what its documentation says or its uses expect, and when exactly:

- A one-shot timer's count is not always 1, as `IEventQueue.h` says: it is 1 exactly while the timer is
  less than one period late (`Timers.CountIsOne`, `Timers.OneShotCountThree`).
- An event that the buffer takes while another one from before the start is still pending overtakes it
  (`EventQueue.AddDuringDrainOvertakes`); no other operation changes the order
  (`EventQueue.StepKeepsOrder`), and among distinct events without losses a run is first in, first out
  exactly if that never happens (`EventQueue.FirstInFirstOutExactly`).
- Mouse compression can be observed when motion of one kind is forwarded while the other kind is
  pending (`ServerProxy.MixingIsObservable`); `ServerProxy.ObservableExactly` and
  `ServerProxy.SessionObservableExactly` say when.
- Reading a clipboard from a stream that is too short leads outside its data
  (`Clipboards.MissingEntryLeadsOutside`), for every truncation of a marshalled clipboard
  (`Clipboards.TruncatedLeadsOutside`); `Clipboards.Unmarshall` says of any stream whether it does.
- A screen is taken for a destination of a key although it is none exactly if it is a piece between
  the colons of one (`KeyDestinations.FoundByMistake`, `KeyDestinations.ColonMatchesAcross`).
- A printed hotkey is not read back if an action is on release among others, or keys "=", "(" or ")" are
  in the wrong places (`HotkeyLimits.HotkeyExactly`, `HotkeyLimits.PressThenReleaseIsNotRead`).
- The splitter of command lines looks ahead for one pair of quotes at a time: a second pair in one
  argument is cut at its spaces (`ArgParser.SecondPairIsCut`), and a quote that is not closed makes one
  argument of two (`ArgParser.UnclosedQuoteGlues`). Lines without these are split as they are meant
  (`ArgParser.SplitLine`).
- 32-bit text in the other byte order is not recognised by its own mark, 0xfffe0000, but by 0x0000fffe
  (`Ucs4.ReversedMarkIsText`, `Ucs4.SwappedIsRead`).
- A truncated UTF-8 sequence at the end of the input swallows octets that are not part of it
  (`Utf8.Resynchronises`, `Utf8.LetterIsSwallowed`).

Apart from these, the handlers of the client alone would not stand a second report of an encrypted
connection after the hello, because the handler for it is never removed
(`Client.SecondReportBreaksHandshake`); the socket sends that report once per stream, and so does the
model.

## Model

| member | source | states |
|---|---|---|
| Utf8.AccumulateClosed | src/lib/base/Unicode.cpp:682-727 | The bits of one to six octets, put together one after the other, are the shifted and combined bits that the decoder writes out for each length. |
| Utf8.TailOfAccumulate | src/lib/base/Unicode.cpp:682-857 | Splitting a decoded value into six-bit groups gives back the continuation octets it came from. |
| Utf8.AccumulateOfTail | src/lib/base/Unicode.cpp:682-857 | Putting the six-bit groups of any value together again gives the value, and each group is a continuation octet. |
| Utf8.DecodeOfEncode | src/lib/base/Unicode.cpp:628-857 | A stored character is read back from its octets, consuming exactly these, whatever follows them; U+FFFE and U+FFFF are stored but read back as invalid. |
| Utf8.EncodeOfDecode | src/lib/base/Unicode.cpp:628-857 | Every successful decoding step consumed exactly the canonical octets of its result: no overlong form, surrogate or noncharacter is accepted. |
| Utf8.Resynchronises | src/lib/base/Unicode.cpp:673-768 | A decoding step swallows an octet that cannot continue the sequence exactly when the sequence declares more octets than are left and such an octet is among them. |
| Utf8.LetterIsSwallowed | src/lib/base/Unicode.cpp:673-680 | The lead octet of a three-octet sequence before a final "A" takes the letter with it. |
| Utf8.MalformedSize | src/lib/base/Unicode.cpp:636-680 | How many octets a malformed step consumes: one that starts no sequence, all that is left of a sequence cut off by the end, and otherwise those up to the first that does not continue it. |
| Utf8.DecodeAllOfEncodeAll | src/lib/base/Unicode.cpp:628-857 | Any number of stored characters is read back in order, and what follows them is decoded on its own. |
| Utf8.DecodeTextThen | src/lib/base/Unicode.cpp:628-802 | Decoding distributes over valid text and whatever octets come after it. |
| Utf8.EncodeAllOfDecodeAll | src/lib/base/Unicode.cpp:628-857 | Octets that decode without an invalid character are the encoding of what they decode to. |
| Utf8.TextDecodes | src/lib/base/Unicode.cpp:114-124 | Octets are a concatenation of encoded characters if and only if no decoding step fails. |
| Utf8.EncodeAllInjective | src/lib/base/Unicode.cpp:804-857 | Two texts with the same octets have the same characters. |
| Utf8.ExtractBits | src/lib/base/Unicode.cpp:682-727 | The case analysis on the length computes the accumulated bits of the lead and continuation octets. |
| Utf8.TrimToIntact | src/lib/base/Unicode.cpp:729-768 | The scan stops at the first octet that is not a continuation and reports whether there was one. |
| Utf8.FromUTF8 | src/lib/base/Unicode.cpp:628-802 | On any octets the cursor moves forward by at least one and not beyond the end, and the result is the one of the decoding specification. |
| Utf8.FromSequence | src/lib/base/Unicode.cpp:682-802 | For as many octets as the lead octet declares, the bits, the truncation and the checks give the specified step. |
| Utf8.Checked | src/lib/base/Unicode.cpp:779-801 | Exactly overlong values, surrogates, U+FFFE and U+FFFF become invalid. |
| Utf8.Encode2 | src/lib/base/Unicode.cpp:819-823 | Two-octet characters: the specification's groups are the program's bit expressions. |
| Utf8.Encode3 | src/lib/base/Unicode.cpp:824-829 | The same for three octets. |
| Utf8.Encode4 | src/lib/base/Unicode.cpp:830-836 | The same for four octets. |
| Utf8.Encode5 | src/lib/base/Unicode.cpp:837-844 | The same for five octets. |
| Utf8.Encode6 | src/lib/base/Unicode.cpp:845-853 | The same for six octets. |
| Utf8.ToUTF8 | src/lib/base/Unicode.cpp:804-857 | Appends the canonical octets of the character, or of the replacement character, and sets the error flag exactly when it had to be replaced. |
| Utf8.IsUTF8 | src/lib/base/Unicode.cpp:114-124 | Answers true exactly for concatenations of encoded characters below 2^31 that are no surrogates and not U+FFFE or U+FFFF. |
| Utf16.ReadAllOfUnitsAll | src/lib/base/Unicode.cpp:200-210 | The words written for any scalars are read back as these scalars, and what follows is read on its own. |
| Utf16.UnitsAllOfReadAll | src/lib/base/Unicode.cpp:555-584 | Words without a lone surrogate are the words of the scalars read from them. |
| Utf16.WideTextReads | src/lib/base/Unicode.cpp:555-584 | Words are well-formed UTF-16 if and only if reading meets no lone surrogate. |
| Utf16.ToUTF16WellFormed | src/lib/base/Unicode.cpp:178-214 | On arbitrary octets the result is well-formed UTF-16 with one scalar for each decoding step. |
| Utf16.ToUTF16Distributes | src/lib/base/Unicode.cpp:178-214 | Conversion of valid text followed by any octets is the conversion of each. |
| Utf16.FromToUTF16 | src/lib/base/Unicode.cpp:178-587 | What any octets become on the way to UTF-16 and back: the kept characters without a leading mark, and no error on the way back. |
| Utf16.UTF8RoundTrip | src/lib/base/Unicode.cpp:178-587 | Octets survive the way to UTF-16 and back if and only if they are valid text, all below 0x110000, and do not begin with U+FEFF. |
| Utf16.ToFromUTF16 | src/lib/base/Unicode.cpp:178-587 | What any words become on the way to UTF-8 and back. |
| Utf16.BackIsInRange | src/lib/base/Unicode.cpp:178-587 | Words that went through UTF-8 never set the error flag on the way back. |
| Utf16.UTF16RoundTrip | src/lib/base/Unicode.cpp:178-587 | Words survive the way to UTF-8 and back if and only if they are well-formed, free of U+FFFE and U+FFFF, and do not begin with U+FEFF; the way back has no error in any case. |
| Utf16.SwappedIsRead | src/lib/base/Unicode.cpp:48-63 | Words whose octets are in the other order, after the mark in that order, are read exactly as the same words in the right order. |
| Utf16.MarkedRoundTrip | src/lib/base/Unicode.cpp:528-587 | With a mark in front, in either byte order, all text below 0x110000 comes back from UTF-16, one that begins with U+FEFF too; what follows it is read as if it were alone. |
| Utf16.LoneSurrogates | src/lib/base/Unicode.cpp:555-584 | After any text, a high surrogate without a low one takes the word after it along, a low one and a high one at the end stand alone, and each such case is written as one U+FFFD. |
| Utf16.BadOctetsAreReplaced | src/lib/base/Unicode.cpp:192-199 | After any text, a malformed step, or a value that UTF-16 cannot hold, becomes one U+FFFD, and the rest is converted on its own. |
| Utf16.PairHoldsTwentyBits | src/lib/base/Unicode.cpp:200-210 | A scalar is one word, or two whose low ten bits are, by arithmetic, the twenty bits of the value above 0x10000. |
| Utf16.AppendUnits | src/lib/base/Unicode.cpp:200-210 | One word, or a surrogate pair, is appended for a scalar. |
| Utf16.UTF8ToUTF16 | src/lib/base/Unicode.cpp:178-214 | Converts as specified; the error flag is set exactly when some decoded value is at least 0x110000. |
| Utf16.AppendPair | src/lib/base/Unicode.cpp:565-578 | A high surrogate and the next word become one character, or a replacement and an error. |
| Utf16.AppendWord | src/lib/base/Unicode.cpp:555-584 | One step of the reading loop appends the character at the cursor and says how many words it took. |
| Utf16.UTF16ToUTF8 | src/lib/base/Unicode.cpp:528-587 | Strips a leading mark, takes the words in the byte order it announces, converts as specified, and reports an error exactly for lone surrogates. |
| Ucs4.WordsOfCharacters | src/lib/base/Unicode.cpp:154-176 | Characters are their own words; only invalid ones are replaced. |
| Ucs4.EncodeAllStorable | src/lib/base/Unicode.cpp:493-526 | Encoding replaces what cannot be stored and nothing else. |
| Ucs4.UTF8RoundTrip | src/lib/base/Unicode.cpp:154-526 | Octets survive the way to 32-bit words and back if and only if they are valid text that does not begin with U+FEFF. |
| Ucs4.UCS4RoundTrip | src/lib/base/Unicode.cpp:154-526 | Words survive the way to UTF-8 and back if and only if each is a character and the first is not U+FEFF. |
| Ucs4.SwappedIsRead | src/lib/base/Unicode.cpp:65-84 | Words with their four octets reversed, after the mark 0x0000fffe, are read as the words they stand for. |
| Ucs4.ReversedMarkIsText | src/lib/base/Unicode.cpp:500-515 | The reversed mark itself, 0xfffe0000, is not taken for a mark: it is replaced, the reversed words after it are taken as they are, and there is an error. |
| Ucs4.MarkedRoundTrip | src/lib/base/Unicode.cpp:493-526 | With a mark in front, any text comes back, one that begins with U+FEFF too. |
| Ucs4.OneWordPerStep | src/lib/base/Unicode.cpp:154-176 | After any text, each decoding step is one word: its value, or U+FFFD for a malformed one. |
| Ucs4.UTF8ToUCS4 | src/lib/base/Unicode.cpp:154-176 | Converts as specified. |
| Ucs4.UCS4ToUTF8 | src/lib/base/Unicode.cpp:493-526 | Converts as specified; there is no error exactly if every word after a leading mark can be stored. |
| EventQueue.StepConserves | src/lib/base/EventQueue.cpp:57-225 | One operation neither makes nor forgets an event: what was held and what was asked for is what was delivered, dropped or is still held. |
| EventQueue.Conservation | src/lib/base/EventQueue.cpp:57-225 | Over every run each event that was asked for is delivered once, dropped for a known reason, or still held. |
| EventQueue.RequestsAreMet | src/lib/base/EventQueue.cpp:188-210 | Over every run the events dispatched are exactly the immediate ones, in order; those that are queued are exactly the others; unknown, system and timer events are neither. |
| EventQueue.NothingLost | src/lib/base/EventQueue.cpp:83-225 | A run in which the buffer takes every id and is not replaced loses nothing. |
| EventQueue.LossIsExact | src/lib/base/EventQueue.cpp:83-225 | What each operation loses: a new buffer all that was in the old one and nothing pending, a refusal the one event, and no other operation anything. |
| EventQueue.PendingExactly | src/lib/base/EventQueue.cpp:64-72 | Over every run, the queue is ready from the start on; what is pending are the events asked for before the start, less one for each round of the loop after it. |
| EventQueue.GetsDeliver | src/lib/base/EventQueue.cpp:140-161 | Any number of getEvent calls delivers that many of the oldest events in the buffer, or all of them. |
| EventQueue.GetsAloneDeliver | src/lib/base/EventQueue.cpp:140-161 | A run without getEvent delivers nothing. |
| EventQueue.DrainsMove | src/lib/base/EventQueue.cpp:67-72 | The loop puts the pending events behind those in the buffer, in order. |
| EventQueue.StepKeepsOrder | src/lib/base/EventQueue.cpp:57-225 | An operation keeps the order of events, but for what it loses, if and only if it is not an add that the buffer takes while another event is pending after the start. |
| EventQueue.OrderComposes | src/lib/base/EventQueue.cpp:57-225 | Operations that keep the order keep it together. |
| EventQueue.FirstInFirstOut | src/lib/base/EventQueue.cpp:57-225 | Over every run without such an add, events are delivered in the order of asking, and without losses all of them are delivered or waiting. |
| EventQueue.AddDuringDrainOvertakes | src/lib/base/EventQueue.cpp:64-72 | Whatever such an add brings comes before all pending events. |
| EventQueue.RunInserts | src/lib/base/EventQueue.cpp:57-225 | In any run without losses, events that wait come out in the order in which they wait; others only come between them. |
| EventQueue.FirstInFirstOutExactly | src/lib/base/EventQueue.cpp:57-225 | Among distinct events and without losses, a run is first in, first out if and only if it has no such add. |
| EventQueue.NextIdIsUnused | src/lib/base/EventQueue.cpp:348-360 | The chosen id is not in use if and only if an id is free or there are fewer than 2^32 events. |
| EventQueue.ReuseId | src/lib/base/EventQueue.cpp:352-356 | Reusing the last free id keeps used and free ids disjoint, distinct and together 0 to k-1. |
| EventQueue.FreshId | src/lib/base/EventQueue.cpp:357-360 | Without free ids the number of events is a new id and keeps that. |
| EventQueue.ReleaseId | src/lib/base/EventQueue.cpp:367-383 | Releasing an id keeps that. |
| EventQueue.SavedPushed | src/lib/base/EventQueue.cpp:212-225 | An id that is put at the back of the buffer puts its event last in the queue. |
| EventQueue.SavedPopped | src/lib/base/EventQueue.cpp:156-161 | Taking the front id and its event removes the first event of the queue and no other. |
| EventQueue.OldestRemoved | src/lib/base/EventQueue.cpp:156-161 | Without its oldest id and that id's event, buffer and table still belong together. |
| EventQueue.SimpleEventQueueBuffer.GetEvent | src/lib/base/SimpleEventQueueBuffer.cpp:52-62 | Takes the oldest id, or nothing from an empty buffer. |
| EventQueue.SimpleEventQueueBuffer.AddEvent | src/lib/base/SimpleEventQueueBuffer.cpp:64-73 | Adds an id as the newest one. |
| EventQueue.SimpleEventQueueBuffer.IsEmpty | src/lib/base/SimpleEventQueueBuffer.cpp:75-80 | Says whether an id is waiting. |
| EventQueue.EventQueue.SaveEvent | src/lib/base/EventQueue.cpp:348-365 | Saves the event under an id that was not in use. |
| EventQueue.EventQueue.RemoveEvent | src/lib/base/EventQueue.cpp:367-383 | Removes exactly the event of the id, or nothing for an unknown id. |
| EventQueue.EventQueue.AddEventToBuffer | src/lib/base/EventQueue.cpp:212-225 | Appends the event to the plain queue, or drops it if the buffer refuses the id. |
| EventQueue.EventQueue.AddEvent | src/lib/base/EventQueue.cpp:188-210 | Drops bogus events, dispatches immediate ones at once, and otherwise holds the event as pending or in the queue: the step that `EventQueue.RequestsAreMet` is about. |
| EventQueue.EventQueue.StartLoop | src/lib/base/EventQueue.cpp:57-65 | Makes the queue ready. |
| EventQueue.EventQueue.DrainOne | src/lib/base/EventQueue.cpp:67-72 | Moves the first pending event to the end of the queue, until none is left. |
| EventQueue.EventQueue.GetEvent | src/lib/base/EventQueue.cpp:140-161 | Delivers the first event of the plain queue. |
| EventQueue.EventQueue.SetBuffer | src/lib/base/EventQueue.cpp:83-108 | Discards the queued events and keeps the pending ones. |
| EventQueue.EventQueue.Perform | src/lib/base/EventQueue.cpp:57-225 | Every operation on table, free list and buffer is the one on the plain queue. |
| EventQueue.Execute | src/lib/base/EventQueue.cpp:57-383 | Every run of the queue, of any length, is the run of the plain queue, with the same events delivered and dropped, as long as fewer than 2^32 events are in the buffer at once. |
| Timers.CountMeasuresLateness | src/lib/base/EventQueue.cpp:507-515 | A timer that fires late by some time reports the number of periods it is for: at least 1, and neither a whole period more nor less than the lateness. |
| Timers.CountIsOne | src/lib/base/IEventQueue.h:113-125 | The count is 1 if and only if the timer is less than one period late; "always 1" for one-shot timers does not hold. |
| Timers.OneShotCountThree | src/lib/base/EventQueue.cpp:507-515 | A one-shot timer of one second that is checked after three reports 3. |
| Timers.CountDownKeepsQueue | src/lib/base/EventQueue.cpp:399-402 | Subtracting the same time from every element in place keeps a least element first. |
| Timers.CountDownKeepsOnTime | src/lib/base/EventQueue.cpp:395-402 | Checking, with the clock read twice, never brings a deadline forward. |
| Timers.FiringIsOnTime | src/lib/base/EventQueue.cpp:404-424 | A firing comes no earlier than the duration after arming; all periods ever counted fit between the timer's creation and the firing; and a recurring timer is armed again with that kept. |
| Timers.TopIsEarliest | src/lib/base/EventQueue.cpp:404-411 | The first timer after the countdown is the one with the earliest deadline, and it has expired exactly if some timer has. |
| Timers.PriorityQueue.Push | src/lib/base/PriorityQueue.h:52-57 | Adds one element and keeps a least one first. |
| Timers.PriorityQueue.Pop | src/lib/base/PriorityQueue.h:59-64 | Removes the first element, which is a least one, and no other. |
| Timers.PriorityQueue.Erase | src/lib/base/PriorityQueue.h:66-71 | Removes the given element and no other, and keeps a least one first. |
| Timers.TimerQueue.NewTimer | src/lib/base/EventQueue.cpp:227-261 | The new timer's deadline is its duration from now, however long ago the clock was reset; the others are unchanged. |
| Timers.TimerQueue.DeleteTimer | src/lib/base/EventQueue.cpp:263-280 | The deleted timer is not armed any more, so it cannot fire; the others are unchanged. |
| Timers.TimerQueue.CountDownElapsed | src/lib/base/EventQueue.cpp:395-402 | All timers are counted down by the time since the last check and stay on time. |
| Timers.TimerQueue.FireTop | src/lib/base/EventQueue.cpp:409-424 | The first timer fires on time with its count, and is queued again with a full period exactly if it recurs. |
| Timers.TimerQueue.HasTimerExpired | src/lib/base/EventQueue.cpp:385-425 | Nothing fires exactly if no deadline has passed; otherwise a timer with the earliest deadline does, not before its time, and the accounts of all timers stay in order. |
| TimerRuns.QueuedAreAccounted | src/lib/base/EventQueue.cpp:227-280 | After every run, each queued timer is as it was made and not deleted, with the right count so far and a deadline that is on time. |
| TimerRuns.EventsAreOnTime | src/lib/base/EventQueue.cpp:227-425 | Every event of every run is for a timer that was made and not deleted since, comes no earlier than its duration after it was last armed, counts at least one period, and all periods counted fit into the time since it was made; a one-shot timer has no second event. |
| TimerRuns.ReportedFits | src/lib/base/EventQueue.cpp:385-425 | At the end of every run, the sum of the counts of a timer's events times its period is at most the time since it was made. |
| TimerRuns.LiveIsMade | src/lib/base/EventQueue.cpp:227-280 | The set of timers holds exactly those that were made and not deleted since. |
| TimerRuns.DeletedNeverFires | src/lib/base/EventQueue.cpp:263-280 | In every run a deleted timer has no event afterwards, unless one is made anew in its place. |
| TimerRuns.StepKeepsDeadline | src/lib/base/EventQueue.cpp:395-422 | No operation brings the deadline of a queued timer forward. |
| TimerRuns.DeadlinesMoveBack | src/lib/base/EventQueue.cpp:227-425 | Over every run, deadlines only move back while the timer is not made anew. |
| TimerRuns.QueuedExactly | src/lib/base/EventQueue.cpp:227-425 | After every run, a timer is queued if and only if it was made and not deleted since and, if it is a one-shot timer, has not fired; its deadline is its duration after it was last armed, and the time that passed within checks since. |
| TimerRuns.FiresExactly | src/lib/base/EventQueue.cpp:385-425 | Every check of every run: no event if and only if no such timer is due; otherwise one for a timer that is due first of all, with the number of periods that have ended since, the first one included. |
| TimerRuns.ArmTimer | src/lib/base/EventQueue.cpp:227-261 | A new timer gets its duration from now as its deadline. |
| TimerRuns.DeleteTimer | src/lib/base/EventQueue.cpp:263-280 | The timer and its deadline are gone. |
| TimerRuns.CheckTimers | src/lib/base/EventQueue.cpp:385-425 | An event comes exactly if a deadline has passed, for a timer with the earliest one and with its count; the other deadlines move back by the time between the two readings of the clock. |
| TimerRuns.Perform | src/lib/base/EventQueue.cpp:227-425 | Every operation on relative times is the one on absolute deadlines. |
| TimerRuns.Execute | src/lib/base/EventQueue.cpp:227-425 | Every run of the timer queue under a monotone clock is a run of the specification, so all of the above holds of its events. |
| ArgParser.PiecesLoseNothing | src/lib/inputleap/ArgParser.cpp:456-500 | The pieces of a split command, with the spaces they are cut at, are the command. |
| ArgParser.QuotesComeInPairs | src/lib/inputleap/ArgParser.cpp:550-578 | In a line of such arguments the first quote from the current argument on is followed by one that closes it. |
| ArgParser.SearchIsNext | src/lib/inputleap/ArgParser.cpp:502-522 | From a place with no quote before the current argument, the search finds the next quoted argument, or there is none. |
| ArgParser.SplitLoop | src/lib/inputleap/ArgParser.cpp:467-499 | From every position between arguments, and with the quote pair known there, which may be a stale one found again, the loop yields exactly the remaining arguments. |
| ArgParser.SplitLine | src/lib/inputleap/ArgParser.cpp:456-531 | A line of any arguments, bare or with one stretch in quotes that may hold spaces, is split into these arguments if and only if it is not one empty argument without quotes; quotes around a whole argument come off, others stay. |
| ArgParser.SecondPairIsCut | src/lib/inputleap/ArgParser.cpp:467-495 | An argument with two stretches in quotes is cut at the first space in the second. |
| ArgParser.UnclosedQuoteGlues | src/lib/inputleap/ArgParser.cpp:467-522 | A quote that is not closed is paired with one that was closed long before, and two arguments in between become one. |
| ArgParser.LoneQuoteIsEmpty | src/lib/inputleap/ArgParser.cpp:524-531 | An argument that is one quote is split into an empty one. |
| ArgParser.AssembledLine | src/lib/inputleap/ArgParser.cpp:559-570 | An assembled command is such a line: exactly the arguments with a space are in quotes. |
| ArgParser.SplitCommand | src/lib/inputleap/ArgParser.cpp:456-578 | Splitting the command of quote-free arguments gives them back if and only if they are not one empty argument. |
| ArgParser.SplitDefaultCommand | src/lib/inputleap/ArgParser.cpp:550-578 | With the default of ignoring empty arguments, the arguments come back if and only if none is empty. |
| ArgParser.KeptDropsIgnored | src/lib/inputleap/ArgParser.cpp:550-566 | The ignored argument is never in the command, nothing is added, and something is dropped if it was there. |
| ArgParser.IgnoredWithParameters | src/lib/inputleap/ArgParser.cpp:552-566 | An ignored argument takes as many arguments after it along as it has parameters, whatever they are; the ones before and after it stay, and in the vector the ignored ones are left unquoted. |
| ArgParser.SearchQuotes | src/lib/inputleap/ArgParser.cpp:502-522 | Finds the next pair of quotes; without one it resets both positions to the beginning. |
| ArgParser.SplitCommandString | src/lib/inputleap/ArgParser.cpp:456-500 | The loop over spaces and quote pairs computes the specified split, of which `ArgParser.SplitLine` says what it gives. |
| ArgParser.AssembleCommand | src/lib/inputleap/ArgParser.cpp:550-578 | The result is the command of the arguments that are not ignored, and the vector is left with the quotes it was given in place. |
| ServerProxy.StepKeepsConsistent | src/lib/client/ServerProxy.cpp:223-780 | What is pending always agrees with the compression flags. |
| ServerProxy.NothingPendingBetweenBatches | src/lib/client/ServerProxy.cpp:104-149 | No motion is pending after a batch that ends normally. |
| ServerProxy.StepLoss | src/lib/client/ServerProxy.cpp:223-780 | One message moves the cursor, with the pending motion counted in, as direct delivery does, but for the exact loss that mixing causes. |
| ServerProxy.BatchLoss | src/lib/client/ServerProxy.cpp:104-780 | For every batch and every answer about readiness, each key, button, wheel and leave message sees the cursor of direct delivery, short of exactly the motion lost so far, and the batch ends in the same state. |
| ServerProxy.NoMixingNoLoss | src/lib/client/ServerProxy.cpp:704-765 | If no motion is forwarded while the other kind is pending, no motion is lost. |
| ServerProxy.CompressionUnobservable | src/lib/client/ServerProxy.cpp:104-780 | Then compression cannot be observed: the same calls at the same cursor positions, and the same position at the end. |
| ServerProxy.ObservableExactly | src/lib/client/ServerProxy.cpp:104-780 | Compression cannot be observed if and only if no observed call and no normal end has motion lost. |
| ServerProxy.SessionLoss | src/lib/client/ServerProxy.cpp:104-780 | The same over any number of batches, between which the shape of the screen may change: what is lost in one batch is still lost in the next. |
| ServerProxy.SessionObservableExactly | src/lib/client/ServerProxy.cpp:104-780 | In a session compression cannot be observed if and only if no observed call and no normal end has motion lost. |
| ServerProxy.StepFollows | src/lib/client/ServerProxy.cpp:151-343 | One message after any past of the session: whether it ends the session, what it does on the screen, and what the proxy remembers of it, by the messages that came before. |
| ServerProxy.DirectIsDue | src/lib/client/ServerProxy.cpp:151-360 | From the start of any session, delivering motion directly does exactly what is due: the handshake lasts until the options, motion is ignored exactly while a change of the shape is unacknowledged, and the session ends with the first message that ends it. |
| ServerProxy.SessionIsDue | src/lib/client/ServerProxy.cpp:104-780 | The proxy, compressing motion, makes the calls that are due and ends when it is due; the cursor falls short of where it is due by exactly what is lost. |
| ServerProxy.AcknowledgedMotionArrives | src/lib/client/ServerProxy.cpp:704-871 | After an acknowledgment the next absolute or relative motion arrives, whether it was ignored before or not, with more input ready or not. |
| ServerProxy.MovesBecomeOne | src/lib/client/ServerProxy.cpp:704-735 | Absolute motion with more input after it becomes one call, to the last position. |
| ServerProxy.RelativeMovesBecomeOne | src/lib/client/ServerProxy.cpp:737-765 | Relative motion with more input after it becomes one call, with all of it added up. |
| ServerProxy.HeldMotionIsDropped | src/lib/client/ServerProxy.cpp:104-545 | Motion held back is not sent any more when the pointer enters, or when the session ends. |
| ServerProxy.MixingIsObservable | src/lib/client/ServerProxy.cpp:704-765 | An absolute move that is held, a relative one that is forwarded and a key: the key comes at another place. |
| ServerProxy.ServerProxy.FlushCompressedMouse | src/lib/client/ServerProxy.cpp:379-392 | Forwards what is pending, absolute before relative, and leaves nothing pending. |
| ServerProxy.ServerProxy.OnMouseMove | src/lib/client/ServerProxy.cpp:704-735 | Holds, forwards or ignores an absolute move as the state machine does. |
| ServerProxy.ServerProxy.OnMouseRelativeMove | src/lib/client/ServerProxy.cpp:737-765 | Adds to the pending motion, forwards or ignores a relative move as the state machine does. |
| ServerProxy.ServerProxy.OnEnter | src/lib/client/ServerProxy.cpp:526-545 | Entering drops what is pending and starts at the given place. |
| ServerProxy.ServerProxy.OnInput | src/lib/client/ServerProxy.cpp:547-702 | Pending motion is forwarded before the input. |
| ServerProxy.ServerProxy.ParseHandshakeMessage | src/lib/client/ServerProxy.cpp:151-221 | Messages before the server's options, which end the handshake: the state machine's step, of which `ServerProxy.StepFollows` says what it does. |
| ServerProxy.ServerProxy.ParseMessage | src/lib/client/ServerProxy.cpp:223-343 | Messages after the handshake: the state machine's step. |
| ServerProxy.ServerProxy.HandleData | src/lib/client/ServerProxy.cpp:104-149 | A whole batch is delivered as the state machine does, with the parser changing within it, and is flushed at its end; `ServerProxy.SessionIsDue` says what that amounts to. |
| ServerProxy.ServerProxy.OnInfoChanged | src/lib/client/ServerProxy.cpp:351-360 | Motion is ignored until the server acknowledges the new shape. |
| Client.AlwaysCoherent | src/lib/client/Client.cpp:111-182 | In every run there is no stream while the computer is suspended, and a connection is kept for later only then. |
| Client.Transitions | src/lib/client/Client.cpp:111-730 | From each phase the way leads to the next one or to idle; which events lead where, phase by phase. |
| Client.PhaseExactly | src/lib/client/Client.cpp:111-730 | After any run, the connection is in a phase if and only if an event has led into it and none has led out of it since. |
| Client.SuspendedExactly | src/lib/client/Client.cpp:713-730 | The computer counts as suspended if and only if a suspension has not been followed by resuming. |
| Client.PromisedSnoc | src/lib/client/Client.cpp:713-730 | A promise to reconnect is made by the last event, or kept by it. |
| Client.ReconnectsExactlyWhenPromised | src/lib/client/Client.cpp:713-730 | Over every run, resuming reconnects if and only if the client was connected at the last suspension or connect() was called after it, with no disconnect() since. |
| Client.ScreenAlternates | src/lib/client/Client.cpp:184-541 | In every run the screen is enabled and disabled in turn, and is enabled exactly while the connection is running. |
| Client.Client.constructor | src/lib/client/Client.cpp:53-93 | A new client is idle with no handlers. |
| Client.Client.SetupConnecting | src/lib/client/Client.cpp:439-454 | The handlers for a stream that is connecting. |
| Client.Client.SetupConnection | src/lib/client/Client.cpp:456-473 | The handlers for a connected stream. |
| Client.Client.SetupScreen | src/lib/client/Client.cpp:475-490 | Makes the proxy, under the asserted condition that there is none. |
| Client.Client.SetupTimer | src/lib/client/Client.cpp:492-500 | Starts the timer, under the asserted condition that there is none. |
| Client.Client.CleanupConnecting | src/lib/client/Client.cpp:502-510 | Removes the handlers for connecting, but not the one for an encrypted connection. |
| Client.Client.CleanupScreen | src/lib/client/Client.cpp:526-541 | The proxy is gone, and the screen is disabled by one call exactly if it was enabled. |
| Client.Client.DoConnect | src/lib/client/Client.cpp:111-166 | Connects, keeps the wish for later while suspended, or does nothing with a stream. |
| Client.Client.DoDisconnect | src/lib/client/Client.cpp:168-182 | Ends idle from any state, even one with a proxy and no matching handlers; one call to disable the screen is made exactly if it was enabled. |
| Client.Client.HandleSuspend | src/lib/client/Client.cpp:713-720 | Remembers whether the client was connected, and disconnects. |
| Client.Client.HandleResume | src/lib/client/Client.cpp:722-730 | Reconnects exactly if that was remembered or asked for. |
| Client.Client.HandleConnected | src/lib/client/Client.cpp:560-573 | Leads from dialing to greeting, and out of all phases exactly if the proxy exists already. |
| Client.Client.HandleConnectionFailed | src/lib/client/Client.cpp:575-584 | Leads from dialing to idle. |
| Client.Client.HandleConnectTimeout | src/lib/client/Client.cpp:586-594 | Leads from either connecting phase to idle. |
| Client.Client.HandleDisconnected | src/lib/client/Client.cpp:596-612 | Leads from every phase with a stream to idle. |
| Client.Client.HandleHello | src/lib/client/Client.cpp:672-711 | An acceptable hello leads to the handshake, any other one to idle. |
| Client.Client.HandleData | src/lib/client/ServerProxy.cpp:104-167 | The options end the handshake once; a closing message disconnects. |
| Client.Client.HandshakeComplete | src/lib/client/Client.cpp:184-190 | Enables the screen, which was disabled before, by one call. |
| Client.Client.Dispatch | src/lib/client/Client.cpp:439-730 | Whatever handler is installed for an event, it keeps stream, timer, proxy and handlers in step with the phase and makes the calls on the screen that go with the change of phase; the only exception is a second report of an encrypted connection with a proxy. |
| Client.Client.HandlerTells | src/lib/client/Client.cpp:439-490 | Which handler is installed for an event determines the phase. |
| Client.Client.DispatchStream | src/lib/client/Client.cpp:439-711 | The same for the events of the stream. |
| Client.Execute | src/lib/client/Client.cpp:111-730 | Every run of events is a run of the phases with exactly its calls on the screen, and all assertions hold in it; the socket reports an encrypted connection once per stream. |
| Client.SecondReportBreaksHandshake | src/lib/client/Client.cpp:502-573 | If a socket did report twice, the handlers alone would have the hello handler installed while a proxy exists. |
| ScreenLinks.ReversedTwice | src/gui/src/ScreenLink.h:41-63 | The way back of the way back is the way, and stretches stay stretches. |
| ScreenLinks.Scale | src/gui/src/ScreenLayoutView.cpp:98-103 | The drawn length is the wanted one exactly if that is not clamped. |
| ScreenLinks.MooredMeets | src/gui/src/ScreenLayoutView.cpp:108-122 | On each of the four sides the placed screen's opposite edge lies on the edge it was placed against, and points meet exactly if they are as far from the aligned point. |
| ScreenLinks.StretchLengths | src/gui/src/ScreenLayoutView.cpp:98-102 | Both stretches are equally long if and only if the target's edge has the wanted length. |
| ScreenLinks.ScaleIsNearest | src/gui/src/ScreenLayoutView.cpp:98-103 | Of all lengths from a quarter to four times the usual one, the one nearest to the wanted length is drawn. |
| ScreenLinks.PlacedAgainstTouches | src/gui/src/ScreenLayoutView.cpp:94-124 | The placed screen touches the edge it is linked through: the stretches start at the same point, and they end at the same point if and only if the size was not clamped. |
| ScreenLinks.PlacedKeepsShape | src/gui/src/ScreenLayoutView.cpp:100-104 | Every placed screen is 16 by 9, a quarter to four times as large as usual. |
| ScreenLinks.PlaceAgainstTranslated | src/gui/src/ScreenLayoutView.cpp:94-124 | Placing commutes with moving the drawing. |
| ScreenLayout.ConnectedSymmetric | src/gui/src/ScreenLayoutView.cpp:198-208 | Links connect in both directions, whichever way they are written. |
| ScreenLayout.ConnectedTransitive | src/gui/src/ScreenLayoutView.cpp:195-212 | Being connected through listed screens is transitive. |
| ScreenLayout.PlacedIsNeverReached | src/gui/src/ScreenLayoutView.cpp:206-208 | A link from a screen that is not placed never leads to one of an earlier group, so the test for that excludes nothing. |
| ScreenLayout.BreadthFirstGrows | src/gui/src/ScreenLayoutView.cpp:193-211 | Adding the screen that the scan reaches next keeps the order of a breadth-first search. |
| ScreenLayout.PlacedInOrderMoved | src/gui/src/ScreenLayoutView.cpp:217-219 | Moving a group keeps every screen against the one it was placed from. |
| ScreenLayout.ExploredIsComponent | src/gui/src/ScreenLayoutView.cpp:193-212 | When the queue is empty, the group is exactly what links connect to its first screen. |
| ScreenLayout.GroupAdded | src/gui/src/ScreenLayoutView.cpp:214-220 | Drawing a finished group to the right of the others keeps everything laid out. |
| ScreenLayout.SameGroupIfConnected | src/gui/src/ScreenLayoutView.cpp:184-221 | Two listed screens are in the same group if and only if links in either direction connect them through listed screens. |
| ScreenLayout.UnconnectedAreApart | src/gui/src/ScreenLayoutView.cpp:184-221 | Screens that no links connect are drawn at least a gap apart, one beside the other. |
| ScreenLayout.PlacedAlongTouches | src/gui/src/ScreenLayoutView.cpp:94-209 | A screen touches the one it was placed against, along the link between them. |
| ScreenLayout.LinkedScreensTouch | src/gui/src/ScreenLayoutView.cpp:184-221 | In the finished layout every screen but the first of its group touches the one it is first reached from, along the first link that reaches it. |
| ScreenLayout.OrderHasServerFirst | src/gui/src/ScreenLayoutView.cpp:176-182 | The order holds every screen as often as the list, and the server's before all others. |
| ScreenLayout.OrderOfOthersIsKept | src/gui/src/ScreenLayoutView.cpp:176-182 | The other screens keep their order; of several of the server's name, a later one comes earlier. |
| ScreenLayout.DrawnFromOrigin | src/gui/src/ScreenLayoutView.cpp:184-221 | The drawing begins in the origin: nothing lies beyond it, and the topmost screens of all groups and the leftmost of the first lie at 0. |
| ScreenLayout.GapIsExact | src/gui/src/ScreenLayoutView.cpp:184-221 | A group lies exactly three units to the right of the one before it. |
| ScreenLayout.FirstIsUsual | src/gui/src/ScreenLayoutView.cpp:184-193 | The first screen of the order is the first one drawn, at the usual size. |
| ScreenLayout.SameSearch | src/gui/src/ScreenLayoutView.cpp:190-212 | The breadth-first order of a component from one of its screens is unique. |
| ScreenLayout.OneLayout | src/gui/src/ScreenLayoutView.cpp:170-221 | The links and the order of the screens determine the drawing: what is proved of a layout holds of one drawing only. |
| ScreenLayout.Bounds | src/gui/src/ScreenLayoutView.cpp:214-216 | The united rectangle is the smallest one that holds all screens. |
| ScreenLayout.FollowLinks | src/gui/src/ScreenLayoutView.cpp:198-211 | One screen's links are followed in order; whatever they lead to is placed, once, and queued. |
| ScreenLayout.PlaceGroup | src/gui/src/ScreenLayoutView.cpp:190-212 | The search terminates with exactly a connected component, every screen placed against the one it is first reached from. |
| ScreenLayout.OrderScreens | src/gui/src/ScreenLayoutView.cpp:176-182 | The loop computes the specified order, which lists the same screens. |
| ScreenLayout.ScreenLayoutView.SetConfiguration | src/gui/src/ScreenLayoutView.cpp:136-154 | A new configuration is laid out at once. |
| ScreenLayout.ScreenLayoutView.LayoutScreens | src/gui/src/ScreenLayoutView.cpp:170-221 | Every listed screen gets exactly one rectangle; the groups are the connected components, each begun with the first screen not placed yet and laid out breadth-first, side by side from 0 with exactly the gap between their extents and their tops at 0. |
| ScreenLayout.ScreenLayoutView.AddGroup | src/gui/src/ScreenLayoutView.cpp:190-220 | One more group is laid out, and the screens before it stay where they are. |
| LegacyGrid.CellNumber | src/gui/src/ServerConfig.cpp:485-489 | The number of a cell inside the grid is in range, and quotient and remainder give its row and column. |
| LegacyGrid.LinksExactly | src/gui/src/ServerConfig.cpp:473-498 | The import makes exactly the links that lead from a screen to the screen next to it, over all of the edge they share. |
| LegacyGrid.ReversedIsImported | src/gui/src/ServerConfig.cpp:473-498 | Every imported link can be crossed back. |
| LegacyGrid.AtMostOneLinkPerSide | src/gui/src/ServerConfig.cpp:473-498 | With distinct names, leaving a screen through one side leads to at most one screen. |
| LegacyGrid.LinksThroughRanked | src/gui/src/ServerConfig.cpp:473-478 | The links of one screen come in the order right, left, up, down. |
| LegacyGrid.LinksInOrder | src/gui/src/ServerConfig.cpp:480-498 | The links come in the order of the cells they leave from, row by row. |
| LegacyGrid.ScreensOfBoth | src/gui/src/ServerConfig.cpp:480-483 | The screens are the cells that are not empty, in the order of the grid. |
| LegacyGrid.ServerConfig.ImportGrid | src/gui/src/ServerConfig.cpp:480-498 | Appends the screens of the grid in order, and their links. |
| LegacyGrid.ServerConfig.LinkNeighbours | src/gui/src/ServerConfig.cpp:484-497 | Appends one screen's links: right, left, up, down. |
| BigEndian.WordAtOfWord | src/lib/inputleap/IClipboard.cpp:148-163 | A written 32-bit integer is read back, up to its low 32 bits. |
| BigEndian.WordOfWordAt | src/lib/inputleap/IClipboard.cpp:148-163 | What is read as an integer is what writing it produces. |
| BigEndian.FirstDifferenceDecides | src/lib/inputleap/IClipboard.cpp:148-155 | The first octet in which two words differ decides which of them is smaller. |
| BigEndian.OrderOfOctets | src/lib/inputleap/IClipboard.cpp:148-163 | The most significant octet comes first, in words and in double words. |
| BigEndian.DoubleWordAtOfDoubleWord | src/lib/inputleap/FileClip.cpp:41-86 | The same for 64 bits, written in two halves. |
| BigEndian.DoubleWordOfDoubleWordAt | src/lib/inputleap/FileClip.cpp:41-86 | What is read as a 64-bit integer is what writing it produces. |
| FileClips.TextTaken | src/lib/inputleap/FileClip.cpp:55-97 | A text is read with a rest if and only if it is short enough and the data is its encoding and the rest. |
| FileClips.FileTaken | src/lib/inputleap/FileClip.cpp:127-153 | A file is read if and only if it is valid and the data begins with its encoding. |
| FileClips.FilesTaken | src/lib/inputleap/FileClip.cpp:122-155 | The same for any number of files. |
| FileClips.DecodesExactly | src/lib/inputleap/FileClip.cpp:122-155 | Octets are accepted with a clip as the result if and only if the clip is valid and they are its encoding, octet for octet. |
| FileClips.DecodeOfEncode | src/lib/inputleap/FileClip.cpp:122-155 | Every valid clip survives being written and read. |
| FileClips.OneFileIsWritten | src/lib/inputleap/FileClip.cpp:25-38 | The encoding of one file, octet by octet. |
| FileClips.ClipsAreLimited | src/lib/inputleap/FileClip.cpp:38-155 | What is accepted, in numbers: 1 to 64 octets of id, 1 to 4096 files, names of 1 to 1024 octets without separators, colons and control characters, neither "." nor "..". |
| FileClips.Marshall | src/lib/inputleap/FileClip.cpp:122-133 | The loop writes the specified encoding, for clips that are not valid too. |
| FileClips.CheckName | src/lib/inputleap/FileClip.cpp:106-118 | Accepts exactly the names without separators and control characters, other than ".", ".." and the empty one. |
| FileClips.Reader.ReadUint32 | src/lib/inputleap/FileClip.cpp:66-76 | Reads four octets if there are that many, and otherwise nothing; the position stays inside the data. |
| FileClips.Reader.ReadUint64 | src/lib/inputleap/FileClip.cpp:78-86 | Reads eight octets if there are that many. |
| FileClips.Reader.ReadString | src/lib/inputleap/FileClip.cpp:88-97 | Reads a text within its limit and inside the data, or fails. |
| FileClips.ReadFile | src/lib/inputleap/FileClip.cpp:148-153 | Reads one file as specified, or fails. |
| FileClips.ReadFiles | src/lib/inputleap/FileClip.cpp:147-153 | Reads the announced number of files as specified, or fails. |
| FileClips.Unmarshall | src/lib/inputleap/FileClip.cpp:135-155 | Answers true with the clip exactly if the octets are accepted. |
| Clipboards.EntriesTaken | src/lib/inputleap/IClipboard.cpp:34-58 | Written entries are read back whatever follows them. |
| Clipboards.DecodeOfEntries | src/lib/inputleap/IClipboard.cpp:34-58 | A stream of any entries, known or not, is read back as these. |
| Clipboards.LastEntryWins | src/lib/inputleap/IClipboard.cpp:50-55 | The last entry of a known format decides what the clipboard holds in it. |
| Clipboards.OthersStay | src/lib/inputleap/IClipboard.cpp:50-55 | Formats without an entry stay absent, and unknown formats are skipped. |
| Clipboards.RoundTrip | src/lib/inputleap/IClipboard.cpp:25-110 | Writing and reading restores exactly which formats are present and their data, whatever follows. |
| Clipboards.EntriesAscend | src/lib/inputleap/IClipboard.cpp:98-105 | Every present format is written once, in ascending order, and no other. |
| Clipboards.OneFormatIsWritten | src/lib/inputleap/IClipboard.cpp:97-105 | The encoding of one format, octet by octet. |
| Clipboards.ShortEntry | src/lib/inputleap/IClipboard.cpp:40-56 | A last entry that announces more data than there is: it is skipped if its format is not known, and leads outside if it is. |
| Clipboards.TruncatedLeadsOutside | src/lib/inputleap/IClipboard.cpp:25-110 | Of all the beginnings of a marshalled clipboard only the whole is read without a read outside the data. |
| Clipboards.MissingEntryLeadsOutside | src/lib/inputleap/IClipboard.cpp:34-58 | A stream that announces one entry and has none leads outside. |
| Clipboards.NextEntry | src/lib/inputleap/IClipboard.cpp:40-56 | The reads of one entry, by their positions: the data of an unknown format is skipped unread. |
| Clipboards.Clipboard.Open | src/lib/inputleap/Clipboard.cpp:68-77 | Opens under the asserted condition. |
| Clipboards.Clipboard.Clear | src/lib/inputleap/Clipboard.cpp:38-56 | No format is left, and the clipboard is owned from the time of opening. |
| Clipboards.Clipboard.Add | src/lib/inputleap/Clipboard.cpp:58-66 | One format is set, the others are unchanged. |
| Clipboards.Clipboard.Has | src/lib/inputleap/Clipboard.cpp:93-98 | Says whether the format is present. |
| Clipboards.Clipboard.Get | src/lib/inputleap/Clipboard.cpp:100-104 | The data of a present format. |
| Clipboards.Unmarshall | src/lib/inputleap/IClipboard.cpp:25-62 | Every read is inside the data if and only if the stream is well-formed; then the clipboard holds exactly its known formats, last entry winning, and nothing from before. |
| Clipboards.Marshall | src/lib/inputleap/IClipboard.cpp:64-110 | The two loops write the count and the present formats as specified, and leave the clipboard closed. |
| Clipboards.Copy | src/lib/inputleap/IClipboard.cpp:121-146 | The destination holds exactly what the source does. |
| Clipboards.Transfer | src/lib/inputleap/IClipboard.cpp:25-110 | A clipboard that is marshalled and read by another one comes out the same. |
| KeyDestinations.SplitOfJoin | src/lib/inputleap/IKeyState.cpp:76-115 | Joining and splitting gives the destinations back, or all screens, if and only if all screens are meant or no name has a colon. |
| KeyDestinations.OccursIfWithin | src/lib/inputleap/IKeyState.cpp:57-63 | Names between colons occur in the joined names if and only if they are some of these, side by side: the search never matches a part of a name. |
| KeyDestinations.ContainsExactly | src/lib/inputleap/IKeyState.cpp:46-96 | For any destinations and any name, with or without colons, the search succeeds if and only if all screens are meant or the pieces of the name are some of the pieces of the destinations, side by side. |
| KeyDestinations.ContainsIfSplit | src/lib/inputleap/IKeyState.cpp:46-115 | A colon-free name is found if and only if splitting the same string gives it, or all screens. |
| KeyDestinations.ContainsOfJoin | src/lib/inputleap/IKeyState.cpp:46-96 | A name is found exactly when it is a destination or all screens are. |
| KeyDestinations.FoundByMistake | src/lib/inputleap/IKeyState.cpp:46-96 | A colon-free name that is no destination is found if and only if it is a piece of a destination with a colon. |
| KeyDestinations.ColonMatchesAcross | src/lib/inputleap/IKeyState.cpp:46-96 | Two such inputs: a name that runs across two destinations, and one that is a piece of one. |
| KeyDestinations.JoinDestinations | src/lib/inputleap/IKeyState.cpp:76-96 | The loop joins as specified, whatever the order, and stops at "*". |
| KeyDestinations.SplitScreens | src/lib/inputleap/IKeyState.cpp:98-115 | The loop collects exactly the names between colons. |
| Texts.JoinOfParts | src/gui/src/Hotkey.cpp:89-107 | Splitting loses no text. |
| Texts.CutsAtTopLevel | src/gui/src/Hotkey.cpp:89-107 | Text is cut at every separator outside parentheses and nowhere else. |
| Texts.SplitInTwo | src/gui/src/Hotkey.cpp:89-107 | A separator outside parentheses splits the text in two that are split on their own. |
| Texts.PartsOfJoin | src/gui/src/Hotkey.cpp:89-107 | Joined parts without separators outside parentheses are split again. |
| Texts.PartsOfBoth | src/gui/src/Hotkey.cpp:89-107 | Splitting two texts together is splitting the first, and going on in its last part with the depth it ends in. |
| Texts.SplitExactly | src/gui/src/Hotkey.cpp:89-107 | Splitting gives the one sequence of parts without a separator outside parentheses that joined are the text. |
| KeySequences.NamedKeyOfName | src/gui/src/KeySequence.cpp:26-83 | No name is in the table for two keys: every key's name leads back to it. |
| KeySequences.FromStringIsBuilt | src/gui/src/KeySequence.cpp:249-274 | The keys that names stand for: those of the table, printable ones, function keys and codes from 0x80. |
| KeySequences.KeyRoundTrip | src/gui/src/KeySequence.cpp:181-274 | A printed key is read back as itself if and only if it is a key that names stand for and, beyond 7 bits, lower-case. |
| KeySequences.KeyExactly | src/gui/src/KeySequence.cpp:249-274 | Which texts name which key: those of the table, single characters, function keys by their number and codes by their four digits, letters and digits in either case. |
| KeySequences.NumberExactly | src/gui/src/KeySequence.cpp:260-271 | A number is read as what its digits stand for, and nothing but digits is read. |
| KeySequences.FlagsArePrinted | src/gui/src/KeySequence.cpp:205-220 | Keys of the key pad are printed like the others, and several modifiers at once like the first of them. |
| KeySequences.NumbersArePrinted | src/gui/src/KeySequence.cpp:188-236 | Letters are printed small, function keys by their number without zeros, and unknown mouse buttons as the fourth. |
| KeySequences.CodesArePrinted | src/gui/src/KeySequence.cpp:238-244 | A key beyond 7 bits is printed as the code of its lower-case letter, in four small digits. |
| KeySequences.FromStringBuilds | src/gui/src/KeySequence.cpp:289-321 | Whatever is read has at most four keys: different modifiers, recorded as such, and a key or button. |
| KeySequences.SequenceRoundTrip | src/gui/src/KeySequence.cpp:97-321 | A sequence that can be read is restored from its text if and only if its key is printed in lower-case. |
| KeySequences.ReadExactly | src/gui/src/KeySequence.cpp:289-321 | A text is read as a sequence if and only if it is one to four names with plus signs between them, the last of a key or button and the others of different modifiers. |
| KeySequences.ToStringLacks | src/gui/src/KeySequence.cpp:97-247 | Separators and white space are not part of printed sequences, unless as the key itself. |
| KeySequences.FrontIsNoSequence | src/gui/src/KeySequence.cpp:97-321 | What is printed before a key has no separator but "+" and cannot be read as a sequence. |
| KeySequences.Print | src/gui/src/KeySequence.cpp:97-110 | The loop prints the names joined by "+". |
| KeySequences.Read | src/gui/src/KeySequence.cpp:289-321 | The loop reads as specified, and rejects repeated modifiers and too many parts. |
| Actions.CallRoundTrip | src/gui/src/Action.cpp:169-181 | A name and its arguments in parentheses are parsed whatever white space is around them. |
| Actions.KeyActionRoundTrip | src/gui/src/Action.cpp:61-212 | A key action with screens, or with "*", is read back from its arguments. |
| Actions.ActionRoundTrip | src/gui/src/Action.cpp:49-261 | Parsing a printed action gives it back, up to the fields that its kind has no use for. |
| Actions.KeysExactly | src/gui/src/Action.cpp:193-212 | The arguments of a key action: a key alone, a key and "*", or a key and names of screens, with white space around them; nothing else is read. |
| Actions.CallExactly | src/gui/src/Action.cpp:183-257 | Which name and arguments stand for which action, name by name. |
| Actions.ReadExactly | src/gui/src/Action.cpp:169-261 | A text is read as an action if and only if it is a call with that meaning. |
| Actions.KeyWithoutScreens | src/gui/src/Action.cpp:193-212 | A key action may leave out its screens; it is then read as with "*". |
| Actions.AllScreensArePrinted | src/gui/src/Action.cpp:69-89 | A key action without screens is nevertheless printed with "*". |
| Actions.WithoutParentheses | src/gui/src/Action.cpp:49-107 | Without parentheses in names, only actions on ")" and "(" have text that can be cut wrongly, those on "(" only if others follow. |
| Actions.TextIsWhole | src/gui/src/Action.cpp:49-107 | A printed action is cut neither between actions nor between phases, if its arguments keep their separators inside. |
| Actions.ParsedActionIsBuilt | src/gui/src/Action.cpp:169-261 | Whatever text is parsed, the action is in the caller's phase, and has what its kind needs and nothing else. |
| Actions.PrintAction | src/gui/src/Action.cpp:49-107 | The printer and its loop over screens write the specified text. |
| Actions.ReadScreens | src/gui/src/Action.cpp:201-209 | The loop reads trimmed names and rejects an empty one. |
| Actions.FindName | src/gui/src/Action.cpp:160-167 | The first index of the name, or -1. |
| Hotkeys.ConditionRoundTrip | src/gui/src/Hotkey.cpp:29-128 | The condition of a hotkey is read back. |
| Hotkeys.PhaseRoundTrip | src/gui/src/Hotkey.cpp:133-143 | Any actions of one phase are read back from their text between commas. |
| Hotkeys.SplitAtRelease | src/gui/src/Hotkey.cpp:69-131 | The ";" before an action on release always begins another phase. |
| Hotkeys.PhaseBeforeReleaseFails | src/gui/src/Hotkey.cpp:69-143 | Actions before one on release end in a comma with nothing after it and are rejected. |
| Hotkeys.ReleaseFirstSpreads | src/gui/src/Hotkey.cpp:133-143 | After a first action on release everything is read as on release. |
| Hotkeys.ActionsRoundTrip | src/gui/src/Hotkey.cpp:69-143 | Printed actions are read back if and only if none is on release or there is only one. |
| Hotkeys.HotkeyRoundTrip | src/gui/src/Hotkey.cpp:29-151 | Parsing a printed hotkey whose parentheses are closed gives it back, up to what its actions have no use for, if and only if no action is on release or the only one is. |
| Hotkeys.PhasesAreRead | src/gui/src/Hotkey.cpp:133-143 | The actions before the ";" are read as on press and those after it as on release, in order. |
| Hotkeys.BothPhasesAreRead | src/gui/src/Hotkey.cpp:109-151 | A condition, " = ", any actions on press, "; " and any actions on release is read as the hotkey with all of them, and rejected if there are none. |
| Hotkeys.ThirdPhaseFails | src/gui/src/Hotkey.cpp:129-131 | A text with two semicolons outside parentheses is rejected. |
| Hotkeys.TwoAreListed | src/gui/src/Hotkey.cpp:69-87 | The printed line, character by character, for two actions on press or release, and that there is none without actions. |
| Hotkeys.PhasesExactly | src/gui/src/Hotkey.cpp:129-143 | Which texts stand for which actions: with no semicolon or one, outside parentheses, and commas between the texts of actions. |
| Hotkeys.ReadExactly | src/gui/src/Hotkey.cpp:109-151 | A text is read as a hotkey if and only if it is its trigger, the first "=", and its actions by phases, at least one: nothing else is accepted, and what is accepted is read as what it says. |
| Hotkeys.ParsedHotkeyIsBuilt | src/gui/src/Hotkey.cpp:109-151 | Whatever text is parsed, the hotkey has actions, those for pressing before those for releasing, and a trigger and actions that could be printed. |
| Hotkeys.SplitOutside | src/gui/src/Hotkey.cpp:89-107 | The scan with its depth and start computes the specified parts. |
| Hotkeys.PrintHotkey | src/gui/src/Hotkey.cpp:69-87 | The loop prints the specified text, and nothing without actions. |
| Hotkeys.ReadActions | src/gui/src/Hotkey.cpp:138-143 | Reads the actions of one phase, or fails with the first that cannot be read. |
| Hotkeys.ReadHotkey | src/gui/src/Hotkey.cpp:109-151 | Parses as specified, phase by phase; `Hotkeys.ReadExactly` says which texts are read as what. |
| HotkeyLimits.EqualsTriggerFails | src/gui/src/Hotkey.cpp:109-124 | A trigger on "=" is cut in two and rejected. |
| HotkeyLimits.ClosedEarlyFails | src/gui/src/Action.cpp:169-199 | An action on ")" is cut after its key, and what is left is no action. |
| HotkeyLimits.KeptOpenFails | src/gui/src/Action.cpp:169-196 | An action on "(" takes in the comma after it and whatever follows, and is then no action. |
| HotkeyLimits.MistakenFails | src/gui/src/Hotkey.cpp:89-151 | Any such action among others makes the whole text unreadable. |
| HotkeyLimits.ActionsExactly | src/gui/src/Hotkey.cpp:69-143 | Printed actions are read back if and only if no action is on release unless alone, none is on ")", and none but the last is on "(". |
| HotkeyLimits.HotkeyExactly | src/gui/src/Hotkey.cpp:29-151 | Parsing a printed hotkey gives it back, up to what its actions have no use for, if and only if that holds and its trigger is not on "=". |
| HotkeyLimits.ParsedHotkeySurvives | src/gui/src/Hotkey.cpp:29-151 | For hotkeys that come from text, printing and parsing is the identity under exactly these conditions. |
| HotkeyLimits.PressThenReleaseIsNotRead | src/gui/src/Hotkey.cpp:69-151 | F1 with one action when pressed and one when released is rejected. |

## Left out

- An odd trailing byte: 16- and 32-bit text is a sequence of whole words in the host's order.
- UCS-2 and UTF-32, which are the other two forms with one more check, and the conversions that depend
  on the C locale.
- Utf8.ToUTF8: the error flag is a result here; clearing an old flag is the caller's first step.
- EventQueue.EventQueue.GetEvent: waiting, time-outs, system events and retrying are not modelled, only
  the step that takes an id from a buffer that has one. The original takes the id and removes its event
  in two critical sections; they are one step here, so that what another thread does between them, such
  as replacing the buffer, is not modelled.
- EventQueue.Execute: every other operation is one critical section, and the interleavings of threads
  are sequences of these.
- The table of handlers and dispatching in the event queue; the ready condition variable.
- Timers.TimerQueue.HasTimerExpired: times are real numbers; IEEE rounding and a count beyond 32 bits are
  not modelled.
- Timers.PriorityQueue.Push: the heap of the standard library is modelled by what it promises, not by
  how it arranges the elements.
- ArgParser.AssembleCommand: the number of parameters to skip is not negative, and they are present, as
  the original's iterator needs.
- ArgParser.SplitLine: arguments with more than one stretch in quotes, or with a quote that is not closed.
- ServerProxy.BatchLoss: coordinates are unbounded integers, so neither the wrap-around of accumulated
  motion nor the clamping of the cursor to the screen is modelled.
- Reading messages from the stream, key and modifier translation, clipboard and file messages: they are
  one kind of input here, or none.
- Client.Execute: the socket's own code is not part of this model, but for its single report.
- The screens' own code: the calls to enable and disable it are a log.
- ScreenLayout.ScreenLayoutView.LayoutScreens: links have stretches that are not empty, because an empty
  one divides by zero; how names compare without case is a parameter.
- Fitting the drawing to the window, painting, and dragging links.
- Overlapping screens within a group: the original does not prevent them.
- Settings other than the grid in the legacy import, and edits of the configuration file.
- FileClips.Unmarshall: what the clip holds after a failure is unspecified, as in the original.
- Clipboards.RoundTrip: data of 4 GiB or more, whose length the encoding truncates.
- Clipboards.Unmarshall: what the original does after a read outside the data is undefined; the model
  ends there. Format numbers are compared as unsigned.
- KeyDestinations.JoinDestinations: the set's elements come as a sequence, in any order.
- HotkeyLimits.HotkeyExactly: names of screens with parentheses in them; `Hotkeys.HotkeyRoundTrip` holds
  of those whose parentheses are closed.
- KeySequences.Read: signs, prefixes and white space that Qt's number parser would accept after "F" and
  "\u".
- KeySequences.KeyRoundTrip: Qt's key codes are the published ones, and lower case beyond 7 bits is a
  parameter.
- Recording keys in the window (appendKey), and saving and loading hotkeys in the settings.
- Ids and transfer names of file clips, and drag information.
- Sockets, encryption, other processes, logging and the user interface.
