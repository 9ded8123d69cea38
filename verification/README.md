# A verified model of the game-server library's algorithms and session protocol

The project models, in Dafny 4.11, the parts of the library that are algorithms or protocols
rather than plumbing, and proves what callers rely on.

* **Timing wheel** (`Wheel`, `WheelIndex`, `Countdown`, `WheelLists`, `CountdownRuns`,
  `WheelClock`, `TimingWheel`). The class `TimingWheel.TimeWheel` keeps heap task objects in
  slot lists that are edited while they are walked; its methods are tied to a value-level
  wheel, and that wheel is proved to be a fast form of one flat list of countdowns in
  insertion order, over every run of ticks, additions and removals. The slot walk is proved to
  end for exactly the slots that hold at most one due repeated task waiting less than one
  interval, and everything else is proved for all ticks that end.
* **Session protocol** (`Session`, `SessionRuns`, `SessionPanics`, `SessionRaces`, `Teardown`).
  Reader, writer, waiter, the connector loop, the peer, and any number of callers of `Send` and
  `Close` as a step system over one bounded channel. Flag test, length test and push of `Send`
  are three separate steps, and so are the swap of the flag, the look-up of the connection and
  its closing in `Close`; a write to the connection has a phase of its own. A caller that panics
  leaves `Send` and the protocol goes on; a loop that panics is recovered and is dead. The
  safety claims hold in every interleaving. Which steps let a caller meet a closed channel, and
  whether a closed session can hang, is decided exactly.
* **Word filter** (`Scan`, `Filter`). A heap trie proved to be a tree and to accept exactly the
  words inserted, and the greedy scanner with its restart rule: sound for every dictionary,
  complete for exactly one class of dictionaries.
* **Wire format** (`Cipher`, `Framing`, `Messaging`). Padding, CBC mode (section 6.2 of
  NIST SP 800-38A, padding of section 6.3 of RFC 5652), frames, partial writes, and whole
  conversations.
* **SQL builder** (`Quoting`, `SqlText`, `BatchUpdate`, `BatchText`, `BatchMeaning`,
  `SingleUpdate`). `UpdateBatch` compiles row updates into one CASE statement (section 12.5 of
  the MySQL 5.7 Reference Manual). Its text reads back to that statement and to no other, and
  running the statement means the single-row updates. String literals follow section 9.1.1 of
  the same manual.
* **Smaller cores**: session ids (`SessionIds`), service ids and registry keys (`Decimals`,
  `ServiceIds`), the bitmap (`BitMaps`), and the 05:00 calendar boundaries (`Calendar`).
  `Arith` holds division facts.

## Assumptions

* Wheel: interval and slot number are positive; the callback does not touch the wheel; a task
  object's key, delay and repetition do not change while it is linked; an object
  without a key is linked at most once.
* Sessions: no panic inside a user callback, no nil user message, no `Stop` and no second connector
  `Start`; `Send` and `Close` are called only after the session was started once. A failed
  dial that is retried changes nothing, and neither does a message that is read successfully.
  A panic inside `Send` is recovered, as the event queue does (service/eventqueue.go:175-186);
  in a caller outside the queue it would end the process. Posting the closed event returns,
  although `PostCb` blocks while the queue's 20000 places are taken
  (service/eventqueue.go:168-172). A write to the connection returns when the peer takes the
  bytes or breaks the connection, at the write deadline if there is one
  (socket/socketoption.go:80-88), or once the connection was closed at this end; nothing else is
  assumed of it. Logging and closing a connection return. The read and the write loop can panic
  outside a callback, in opening a frame and in encoding a message, exactly as
  `Messaging.ReadPanicsExactly` and `Messaging.SendPanicsExactly` say; whether the peer sends
  such frames and callers such messages are the fields `badFrames` and `badSends` of
  `Session.Config`.
* Messages: the block cipher of each key has an inverse, RSA decryption with the client key
  undoes encryption, registered types are protobuf messages, and a decoded message is identified
  with its id and its marshalled bytes.
  `Messaging.Sink` and `Messaging.Source` stand for the two ends of a connection: a write
  without an error takes at least one byte, and `io.ReadFull` returns all bytes or an error.
* SQL: `BatchMeaning.Db` leaves open when a stored cell equals a literal, what storing a
  literal yields and what addition does. Names contain none of the characters that end a name
  in the generated text (blank, `=`, `+`, comma, parentheses, single quote).
* Session ids: a fixed key that is not negative, and a clock that does not go back and stays
  below 2^40 seconds.
* Calendar: the zone is a fixed UTC+8, local dates end with the year 9999, and a span is at
  most 106751 days, the longest a 64-bit nanosecond duration holds.

## Where the code and its documentation or intent differ

The model follows the code. Each of these is stated by the lemma or method named.

* A repeated timer whose period is a whole number of revolutions is re-added to the slot being
  walked. It fires one revolution late whenever nothing follows it there
  (`CountdownRuns.AloneIsLate`); `Countdown.Late` says exactly when.
* A fired task without a key is never unlinked and fires again on every revolution
  (`Countdown.Stays`).
* A task without any wait is fired up to three times in one tick (`Countdown.Again` says when).
* The channel of a node named "gate" has room for 201 entries while `Send` tests against 2000,
  so one sender can already make its teardown hang (`Teardown.NodeHangsExactly`).
* Writes have no deadline by default, and after the closed flag is set `Close` no longer closes
  the connection. A peer that stops reading and then sends something undecodable leaves the
  writer in its write for ever (`Teardown.NoDeadlineHangs`).
* A frame whose opening panics ends the read loop without flag, sentinel, closed event or
  `exitWg.Done`, since `RunRecv` recovers and returns. The private key of the server is the empty
  string (rpc/rsacrypt.go:30), so ten bytes from any peer are such a frame
  (`Messaging.PanicFrames`), and no `Close` ever ends that session (`Teardown.BadFrameHangs`).
  The same holds of the write loop and a message that is a nil packet, or a value where its codec
  needs the pointer (`Teardown.BadSendHangs`).
* `Start` clears the closed flag before it replaces the channel. A caller in between sends on
  the closed channel of the generation before (`SessionRaces.StartRace`).
* `Send` on a full channel names the address of a connection that may be gone and then panics
  (`SessionPanics.TurnedBack`).
* The filter misses words that start inside a longer window and one-rune words
  (`Scan.MissesInside`, `Scan.MissesSingle`).
* A frame above the receiver's limit is skipped without its body and without an error, so the
  body is read as the next header (`Messaging.LimitMismatchDesyncs`).
* With several key columns `UpdateBatch` restricts the rows by the first key alone, and a column
  that some items leave out has no ELSE branch. Such rows get NULL (`BatchMeaning.SameExactly`).
* `NewNetSessionManager` stores milliseconds where every later reading is in seconds; the ids are
  right all the same (`SessionIds.NetSessionManager.Add`).
* `curNum` of the bitmap counts calls, not members (`BitMaps.BitMap.Add`).

## Model

| member | source | states |
|---|---|---|
| `Wheel.StepRest` | util/timewheel.go:85-103 | What is left to be walked after one turn of the loop: everything behind the cursor, plus a re-added entry exactly when a due repeated keyed entry waits a whole number of revolutions; the walk stops early exactly behind a removed last element. |
| `Wheel.StepDecreases` | util/timewheel.go:85-103 | Every turn of a walk with at most one zero-wait entry ahead lowers a lexicographic measure and keeps that condition, even when entries are re-added to the walked slot. |
| `Wheel.WalkEndsExactly` | util/timewheel.go:83-103 | The walk over a slot ends if and only if at most one due repeated keyed task of the slot waits less than one interval. |
| `WheelIndex.AddKeeps` | util/timewheel.go:112-126 | Adding keeps the key index and the slots in agreement: timer[k] = i exactly when slot i holds one task with key k and no other slot does. |
| `WheelIndex.RemoveKeeps` | util/timewheel.go:135-149 | Removing keeps the agreement, leaves the key absent, and finds the indexed task wherever it waits although the walk stops at the first removal. |
| `WheelIndex.StepKeeps` | util/timewheel.go:85-103 | Each turn of the slot walk keeps the agreement of index and slots. |
| `WheelIndex.TickKeeps` | util/timewheel.go:83-110 | A whole tick keeps the agreement of index and slots. |
| `Countdown.WalkSweeps` | util/timewheel.go:85-103 | A walk that ends does to the flat list of countdowns, from any cursor on, what one sweep over that list does, firing the same tasks in the same order. |
| `Countdown.CanTickExactly` | util/timewheel.go:83-110 | A tick of the wheel ends exactly when the list has at most one countdown at 0 that is re-entered with no wait. |
| `Countdown.TickRefines` | util/timewheel.go:83-110 | Every tick that ends is one tick of the flat list: it fires the countdowns at 0 in insertion order, lowers the others by one, drops fired one-shot tasks and re-enters repeated ones; a task with no wait is fired up to twice more at the end; the new wheel carries the new list. |
| `WheelLists.SomeListCarried` | util/timewheel.go:128-133 | Every wheel carries some list of countdowns, with remaining = ((slot - pointer) mod N) + circle * N. |
| `WheelLists.PatientTick` | util/timewheel.go:83-110 | When every repeated keyed task waits at least one interval, a tick ends and leaves the wheel in such a state again. |
| `CountdownRuns.PatientRuns` | util/timewheel.go:83-149 | If the same holds of every task added, all ticks of every run of ticks, additions and removals end. |
| `CountdownRuns.AddRefines` | util/timewheel.go:112-126 | Adding to the wheel is appending to the list unless the key is already there. |
| `CountdownRuns.RemoveRefines` | util/timewheel.go:135-149 | Removing from the wheel takes exactly the countdowns of that key out of the list. |
| `CountdownRuns.OpRefines` | util/timewheel.go:83-149 | Each operation of the wheel that ends refines its list form and keeps the index. |
| `CountdownRuns.RunRefines` | util/timewheel.go:83-149 | Over any run of ticks, additions and removals the ticks of the wheel end exactly where those of the list do, and then the wheel never leaves the list and has fired exactly what the list fired, in order. |
| `CountdownRuns.FiringTimes` | util/timewheel.go:83-126 | Whatever else is added, removed and fired, a keyed task fires first on tick left + 1 and, when repeated with n mod N not 0, every n ticks after that; a one-shot task fires once. |
| `CountdownRuns.FiringBounds` | util/timewheel.go:83-126 | With any period, a repeated keyed task fires at most every n ticks and at least every n + N ticks. |
| `CountdownRuns.AloneIsLate` | util/timewheel.go:94-103 | Alone in the wheel, a repeated task with n mod N = 0 waits n - 1 + N ticks after firing: the period is not n for every n. |
| `CountdownRuns.AddedTaskFires` | util/timewheel.go:83-126 | A task added to a real wheel under a free key fires first on tick n + 1, and when repeated with n mod N not 0 every n ticks after that, in any run whose ticks end and that leaves its key alone. |
| `CountdownRuns.AddedTaskBounds` | util/timewheel.go:83-126 | With any period n of at least one tick, it fires at most every n and at least every n + N ticks after that. |
| `CountdownRuns.KeylessFire` | util/timewheel.go:93-102 | Tasks without a key, repeated or not, fire first after their delay and then once every revolution for ever, whatever else is added and whatever is removed. |
| `CountdownRuns.RemovedTaskSilent` | util/timewheel.go:135-149 | A removed task never fires again until its key is added anew. |
| `WheelClock.UpdateComposes` | util/timewheel.go:65-81 | Update(t2) ends exactly when Update(t1) and then Update(t2) do, and leaves the same wheel, the same fired tasks and the same clock. |
| `WheelClock.UpdatesTotal` | util/timewheel.go:65-81 | Any sequence of updates with non-decreasing times performs exactly floor((last - first) / interval) ticks, however it is spaced, and ends exactly when these ticks do. |
| `WheelClock.UpdateReaches` | util/timewheel.go:65-81 | Whether the clock was behind the given time or ahead of it, an update leaves it at most that time and less than one interval behind; a first update, and one that goes back, performs no tick. |
| `WheelClock.UpdatesFrom` | util/timewheel.go:65-81 | Further non-decreasing times count on from where the clock stands, or from the first of them if that is earlier. |
| `WheelClock.UpdatesStepBack` | util/timewheel.go:71-73 | A run with a step back performs the ticks of its two parts, the second counted from where the clock stood or from the step back if that is earlier; a step back within the rest of an interval changes nothing. |
| `WheelClock.PatientTicks` | util/timewheel.go:65-81 | When every repeated keyed task waits at least one interval, any number of ticks end. |
| `TimingWheel.NewTimeWheel` | util/timewheel.go:38-52 | No wheel for an interval of 0; otherwise a fresh, empty one, valid if it has any slot. |
| `TimingWheel.TimeWheel.Init` | util/timewheel.go:43-59 | A fresh wheel has so many empty slots, an empty index and its pointer at slot 0. |
| `TimingWheel.TimeWheel.AddTask` | util/timewheel.go:112-126 | Succeeds exactly when the key is not indexed; then the object is the last of the slot its delay leads to and its key is indexed there, and otherwise nothing changes; an object that was not linked before becomes the wheel's new entry. |
| `TimingWheel.TimeWheel.GetIdxAndCircle` | util/timewheel.go:128-133 | Slot and circle encode the delay: the slots from the pointer to the slot, and N for each circle, are the delay in intervals. |
| `TimingWheel.OnePlace` | util/timewheel.go:128-133 | No other slot and circle encode that delay. |
| `TimingWheel.TimeWheel.RemoveTask` | util/timewheel.go:135-149 | Takes the one task of the key out of its slot and the index, and keeps both in agreement. |
| `TimingWheel.TimeWheel.Relink` | util/timewheel.go:94-102 | A fired keyed task leaves the walked list and the index and, when repeated, is added anew. |
| `TimingWheel.TimeWheel.Visit` | util/timewheel.go:85-103 | One turn of the loop over heap objects is one step of the walk, with the saved successor. |
| `TimingWheel.TimeWheel.Tick` | util/timewheel.go:83-110 | The in-place walk ends and turns the wheel into the tick of its value, with the callbacks it made, all at the given time, in order; no task object appears from nowhere. |
| `TimingWheel.TimeWheel.Update` | util/timewheel.go:65-81 | Whenever the ticks due end, the catch-up loop is the update of the wheel's value, of which `WheelClock.UpdateReaches` and `WheelClock.UpdatesStepBack` say what it does: one tick per whole interval passed, the rest of the time kept, and a restart from a clock that went back. |
| `Session.StepKeeps` | socket/tcp/session.go:137-320 | Every step of every goroutine, panics of callers included, keeps the protocol invariant: the counters of a generation say how far its goroutines are, and the channel loses and reorders nothing. |
| `SessionRuns.OneTeardown` | socket/tcp/session.go:157-168 | In every interleaving a generation pushes at most one sentinel, emits at most one closed event, closes its channel at most once and only after both loops are done; when the end callback ran, each of these happened exactly once; the connector's count stays in 0..1. |
| `SessionRuns.GenerationsApart` | socket/tcp/connector.go:73-94 | Whenever the connector is outside its wait, no goroutine of an earlier generation can take a step, and its channel is closed. |
| `SessionRuns.ReaderConnected` | socket/tcp/connector.go:73-85 | While the reader or the writer runs, the connection is there and the channel is not closed. |
| `SessionRuns.ConnectionClosed` | socket/tcp/session.go:313-317 | A writer that has left has closed the connection, whatever made it leave; and the session manager has the session from before its loops start until after its channel is closed. |
| `SessionRuns.Conserved` | socket/tcp/session.go:189-204 | What Send accepted is what the writer took followed by what is queued, in order; before the sentinel the queue never exceeds limit - 1 + senders, nor the capacity. |
| `SessionRuns.SentinelDrains` | socket/tcp/session.go:294-311 | A writer that stopped on the sentinel leaves behind at most as many messages as callers were inside Send when the flag was set; with none inside, everything accepted was taken. |
| `SessionPanics.SettledNeverPanics` | socket/tcp/session.go:137-320 | If nobody is inside Send when the channel is closed, and nobody enters between the reset of the flag and the new channel unless the closed channel is full, no run sends on a closed channel, closes one twice or names a missing connection. |
| `SessionPanics.NoPanicFromStart` | socket/tcp/session.go:137-320 | The same from the state before the first Start. |
| `SessionPanics.PoliteExactly` | socket/tcp/session.go:137-204 | The two conditions are the weakest: of the steps that can follow a run that kept them, exactly those that keep them are safe, whatever polite run goes on from there. |
| `SessionPanics.ClosingExactly` | socket/tcp/session.go:157-160 | When both loops are done and the channel is about to be closed, a caller can panic before the flag is reset if and only if somebody is inside Send. |
| `SessionPanics.UnflaggedExactly` | socket/tcp/session.go:137-145 | When a later Start has reset the flag, a caller can panic before the channel is replaced if and only if one is past its tests, or the closed channel is below the limit and one is inside Send or can still enter it. |
| `SessionPanics.TurnedBack` | socket/tcp/session.go:198-203 | A caller that tested the flag in time and then finds the channel full panics once the connector has taken the connection away. |
| `SessionRaces.FlagRace` | socket/tcp/session.go:251-257 | A run from the start in which only the first condition is broken, and a caller past its tests sends on the closed channel. |
| `SessionRaces.StartRace` | socket/tcp/session.go:137-145 | A run in which only the second is broken, and a caller meets the closed channel of the generation before, however quick Send is. |
| `Teardown.Closer` | socket/tcp/session.go:137-320 | Once the reader has set the flag, every step anybody takes brings the end callback strictly closer. |
| `Teardown.EndMet` | socket/tcp/session.go:137-320 | A run longer than that distance has met the complete teardown: both loops and the waiter done, channel and connection closed, the session out of the session manager, and sentinel, event, close and end callback counted exactly once. |
| `Teardown.TeardownEnds` | socket/tcp/session.go:137-320 | With limit + senders at most the capacity, a deadline on writes and no writer that dies, a teardown the reader has begun can always go on, and every run that goes on long enough, panics of callers included, completes it. |
| `Teardown.TeardownEndsCalmly` | socket/tcp/session.go:137-320 | Under the two conditions on callers the completing run contains no panic at all. |
| `Teardown.ReadFailureEnds` | socket/tcp/session.go:246-257 | After a failed read the reader can set the flag as long as it has not, and every run that lets it do so and goes on long enough completes the teardown. |
| `Teardown.CloseEnds` | socket/tcp/session.go:174-187 | While a Close has the flag up and the reader reads on, the connection is down or some Close can still bring it down; the reader can fail all the while, and every run that lets it fail and set the flag and then goes on long enough completes the teardown. |
| `Teardown.StuckForever` | socket/tcp/session.go:251-257 | A reader blocked on a full channel whose writer is gone stays blocked in every continuation. |
| `Teardown.QueueFillsExactly` | socket/tcp/session.go:189-204 | Before the sentinel the channel can hold exactly every number of messages up to the capacity and limit - 1 + senders. |
| `Teardown.NodeFillsExactly` | socket/tcp/session.go:141-145 | With the package's numbers one sender fills the channel of a gate up to 201 messages and that of another node up to 2000. |
| `Teardown.NoRoomHangs` | socket/tcp/session.go:189-204 | Without that room, for every limit, capacity and number of senders, a run that reaches such a state. |
| `Teardown.StuckInWriteForever` | socket/tcp/session.go:174-179 | A writer inside a write without a deadline to a stalled peer stays there in every continuation once the flag is set, since Close then closes nothing. |
| `Teardown.NoDeadlineHangs` | socket/socketoption.go:80-88 | Without a deadline, for every limit, capacity and number of senders, a run that reaches such a state. |
| `Teardown.LoopDeadForever` | socket/tcp/session.go:231-243 | After a loop was recovered from a panic the waiter waits for good in every continuation, whatever the other loop and callers of Close do. |
| `Teardown.BadFrameHangs` | socket/tcp/session.go:231-278 | If the peer may send a frame whose opening panics, for every configuration a run to such a session with the flag set, the connection closed and nobody inside Send. |
| `Teardown.BadSendHangs` | socket/tcp/session.go:280-320 | If a caller may hand Send what panics when it is encoded, a run to such a session by way of the writer. |
| `Teardown.HangsExactly` | socket/tcp/session.go:137-320 | Some run reaches a closed session that no continuation ends if and only if limit - 1 + senders reaches the capacity, writes have no deadline, the peer may send a frame whose opening panics, or a caller a message whose encoding does. |
| `Teardown.NodeHangsExactly` | socket/tcp/session.go:141-145 | With the package's numbers: exactly on a gate, or with two or more senders, or without a write deadline, or with such a frame or message. |
| `Scan.FromSound` | util/dfa_filter.go:101-142 | From any window on, the matches are in order, disjoint, and each the longest dictionary word at its place. |
| `Scan.Sound` | util/dfa_filter.go:101-142 | For every dictionary and sentence the matches are in bounds, strictly ordered and disjoint, and each is the longest dictionary word starting there. |
| `Scan.FromComplete` | util/dfa_filter.go:101-142 | For a clean dictionary no place at or behind the window where a word starts is missed. |
| `Scan.MissesInside` | util/dfa_filter.go:113-127 | A dictionary in which the first rune of a word stands inside a word misses an occurrence in some sentence. |
| `Scan.MissesSingle` | util/dfa_filter.go:124-126 | A dictionary with a one-rune word misses an occurrence in some sentence, because the restarted window has two runes. |
| `Scan.CompleteExactly` | util/dfa_filter.go:101-142 | The scanner reports every place where a word starts, in every sentence, if and only if all words have at least two runes and no first rune of a word occurs at a later position of a word. |
| `Scan.CleanReports` | util/dfa_filter.go:101-142 | For such dictionaries each such place has exactly one match, its longest word. |
| `Scan.MatchesExactly` | util/dfa_filter.go:101-142 | For every dictionary and sentence the reported matches are exactly the longest words where a window starts, and away from the start of the sentence only where two runes begin a word; windows start at 0 and at the rune the window before failed on. |
| `Filter.DFAUtil.InsertWord` | util/dfa_filter.go:55-68 | Exactly this word becomes accepted, and the node graph stays a tree without sharing. |
| `Filter.DFAUtil.PathsBegin` | util/dfa_filter.go:71-82 | A path exists in the trie exactly when some accepted word begins with it. |
| `Filter.DFAUtil.StartsWith` | util/dfa_filter.go:71-82 | True exactly for the beginnings of accepted words. |
| `Filter.DFAUtil.SearchWord` | util/dfa_filter.go:85-96 | True exactly for accepted words. |
| `Filter.DFAUtil.SearchSentence` | util/dfa_filter.go:101-142 | The imperative scanner over the heap trie returns the matches that module Scan proves sound and complete. |
| `Filter.DFAUtil.LongestWord` | util/dfa_filter.go:116-121 | From long to short, the longest word in the closing window, if any. |
| `Filter.DFAUtil.IsMatch` | util/dfa_filter.go:147-152 | True exactly when the normalised sentence, as `Filter.NormalizedIs` describes it, has a match. |
| `Filter.DFAUtil.HandleWord` | util/dfa_filter.go:159-178 | Without a match the sentence comes back untouched; otherwise the normalised sentence, with exactly the matched positions replaced and its length kept. |
| `Filter.NormalizedIs` | util/dfa_filter.go:148-150 | Between the first and the last rune that is no space the normalised sentence has every rune that is neither ' ' nor '&', each at its place in order, and nothing else. |
| `Filter.CoveredByWords` | util/dfa_filter.go:170-175 | A position is overwritten exactly if it lies in a reported dictionary word, the longest at its place. |
| `Filter.NewDFAUtil` | util/dfa_filter.go:182-195 | A fresh trie accepting exactly the non-empty words of the list. |
| `Filter.DFAInsertWord` | util/dfa_filter.go:197-204 | The accepted words are those before and the non-empty words of the list, in any order. |
| `Cipher.PKCS5Padding` | rpc/aesctrcrypt.go:171-186 | A fresh buffer holding the text and its padding up to the next whole block. |
| `Cipher.PaddingRoundTrip` | rpc/aesctrcrypt.go:171-198 | Removing the padding undoes adding it, for every text, whole blocks included. |
| `Cipher.PaddedBytes` | rpc/aesctrcrypt.go:171-186 | The text stays in front, the last block is filled up or a whole one added, and every padding byte is the number of them. |
| `Cipher.UnpaddedBytes` | rpc/aesctrcrypt.go:188-198 | Of whatever was decrypted as many bytes as its last one says are cut off, and it is an error exactly if there are not that many. |
| `Cipher.XorFlips` | rpc/aesctrcrypt.go:132-135 | The exclusive or flips a bit of the first byte exactly where the second has a one. |
| `Cipher.CbcChains` | rpc/aesctrcrypt.go:132-135 | Every block of the ciphertext is that of the plain block combined with the ciphertext block before it, the first with the vector. |
| `Cipher.CbcRoundTrip` | rpc/aesctrcrypt.go:132-135 | CBC decryption undoes CBC encryption over any block permutation and keeps the length. |
| `Cipher.EnvelopeRoundTrip` | rpc/aesctrcrypt.go:113-169 | Decryption undoes encryption for every text, key and vector; the ciphertext has 16 * (length / 16 + 1) bytes; encryption succeeds exactly for keys of 16, 24 or 32 bytes with a 16-byte vector, and otherwise decryption fails with the same error. |
| `Cipher.EnvelopeChains` | rpc/aesctrcrypt.go:113-137 | Block k of what AESCbcEncrypt returns is the block cipher, under the key, of block k of the padded text combined with block k - 1, or for the first with the given vector, or with the default one if none is given. |
| `Framing.FillFrame` | rpc/msg.go:183-200 | The buffer filled in place is the ten-byte header followed by the body. |
| `Framing.ReceiveExactly` | rpc/msg.go:228-319 | A frame is read back whole, with the stream right behind it, if and only if its body fits the length field and the receiver's limit. |
| `Framing.FrameBytes` | rpc/msg.go:183-200 | As numbers, most significant byte first: two bytes of length, two of id, four of sequence number, two of flag, then the body. |
| `Framing.CutFrameEnds` | rpc/msg.go:228-319 | A frame that fits and is cut off anywhere yields the end of the stream and no package. |
| `Messaging.WriteFull` | util/ioutil.go:9-19 | However a buffer is split into partial writes, it arrives whole and in order, or an error is returned and a prefix has arrived. |
| `Messaging.SendMessage` | rpc/msg.go:135-211 | Writes exactly one frame, sealed as `Messaging.SealedAs` says, drops a message above the limit without an error, and writes nothing when sealing fails or the message is malformed, which panics. |
| `Messaging.RecvPackageData` | rpc/msg.go:228-319 | Consumes exactly one frame, except that a body above the limit stays in the stream. |
| `Messaging.ReadMessage` | rpc/msg.go:30-75 | One package is received, opened with the cipher its flag names and decoded; errors and panics are told apart, and every one leaves the stream behind that package. |
| `Messaging.RsaByUse` | rpc/msg.go:39-60 | An RSA package opens with the client's private key for id 1006, with the server's for id 0, and with the general one for every other id. |
| `Messaging.ReadDeliversExactly` | rpc/msg.go:61-75 | A message is delivered exactly if the package opens, its id is registered and its bytes unmarshal, and then with the package's id and sequence number; a package under neither cipher is taken as it is. |
| `Messaging.ReadPanicsExactly` | rpc/msg.go:38-67 | A package makes the reader panic if and only if it is under RSA for a key without a PEM block, or under a 16-byte AES key with a body that is no whole number of blocks. |
| `Messaging.PackageKeysPanic` | rpc/rsacrypt.go:17-33 | With the keys of the package the first case is every RSA package with the hand shake's id. |
| `Messaging.PanicFrames` | rpc/rsacrypt.go:124-125 | Ten bytes make any reader panic, whatever its limit, key and registered messages; with an AES key and any limit above 0, so do eleven under AES. |
| `Messaging.SendPanicsExactly` | rpc/msg.go:135-181 | Sending panics on exactly the malformed messages. |
| `Messaging.SealOpens` | rpc/msg.go:162-181 | The flag chosen when sending selects the decryption that gives the bytes back, for every id and key. |
| `Messaging.SealedAs` | rpc/msg.go:162-181 | The hand shake goes out under RSA with flag 1; the ping answer, and everything while there is no key, as plain data with flag 0; everything else under AES with flag 2 and 16 * (length / 16 + 1) bytes that decrypt to the data. |
| `Messaging.WrittenExactly` | rpc/msg.go:183-200 | A message is written exactly if it can be sealed and the sealed length is within the limit, and dropped exactly if it is above; the frame carries the low 16 bits of its id, and the sequence number of a packet passed on or else 0. |
| `Messaging.AesKeyIsSixteen` | rpc/msg.go:172-180 | Since the key is also the vector, sending under AES is refused exactly for keys that are neither empty nor 16 bytes long. |
| `Messaging.StreamRoundTrip` | rpc/msg.go:30-319 | Reading everything a list of messages put on the wire returns exactly the messages within the limit, with ids and sequence numbers, in order, and consumes every byte, whenever the sender's limit is at most the receiver's and that is below 2^16. |
| `Messaging.LimitMismatchDesyncs` | rpc/msg.go:279-285 | With a smaller receiver limit, a message in between leaves its body in the stream as the start of the next header. |
| `Quoting.ChainIsEscape` | socket/mysql/sqler.go:46 | The two chained replacements act on each character by itself. |
| `Quoting.QuotedLexes` | socket/mysql/sqler.go:39-48 | A printed string, read as a MySQL literal, is the original string, whatever it contains. |
| `Quoting.QuotedShape` | socket/mysql/sqler.go:39-48 | A printed string has a quote at each end and one character more for each quote or backslash in it, and dropping the escaping backslashes gives the string: nothing else is changed. |
| `Quoting.Implode` | socket/mysql/sqler.go:51-63 | The values of a list, each printed, with the glue between them. |
| `Quoting.ListLexes` | socket/mysql/sqler.go:51-63 | A printed non-empty list of strings reads back as that list. |
| `SqlText.ValueReads` | socket/mysql/sqler.go:39-48 | Every printed value, number or string, reads back where it stands and ends where it should. |
| `BatchUpdate.UpdateBatch` | socket/mysql/sqler.go:617-698 | The nested loops return the text of one CASE statement: per assigned column one branch for every item that has the column, in data order, each on all key columns, restricted to the first key of the items; the columns come in some order of the map. |
| `BatchUpdate.AddCases` | socket/mysql/sqler.go:661-682 | One item adds its branch to each of its columns that is no key, in any order, and touches nothing else. |
| `BatchText.StatementReads` | socket/mysql/sqler.go:684-697 | The text of a statement reads back to that statement and nothing is left over, whatever the values contain. |
| `BatchText.TextMeansSingles` | socket/mysql/sqler.go:636-698 | The text returned for one key column, distinct keys and the same columns in every item, read back and run on any table, does what the single-row updates do one after the other in any order; without a column to assign the text is no statement. |
| `SingleUpdate.BuildData` | socket/mysql/sqler.go:335-350 | The SET list of one row update, in some order of its columns. |
| `SingleUpdate.SettingsMean` | socket/mysql/sqler.go:335-355 | That text reads back to assignments that store what the single-row update is taken to store. |
| `BatchMeaning.AssignClosed` | socket/mysql/sqler.go:684-697 | Whatever the order of the columns, every assignment sees the row as it was, since key columns are never assigned. |
| `BatchMeaning.CaseNone` | socket/mysql/sqler.go:676-682 | A column gets NULL in a row no item of that column matches. |
| `BatchMeaning.CaseOne` | socket/mysql/sqler.go:676-682 | When one item matches, the CASE of its column yields that item's value. |
| `BatchMeaning.SameWhenCovered` | socket/mysql/sqler.go:636-698 | With any number of key columns, on a row matched by at most one item and covered by it, the statement equals the single updates in any order. |
| `BatchMeaning.SameExactly` | socket/mysql/sqler.go:636-698 | On a row that at most one item matches and whose assigned columns hold values, over a database in which no literal is NULL and adding NULL gives NULL, the statement agrees with the single updates if and only if the row, when its first key is listed, is matched on all keys by an item that has every assigned column. |
| `BatchMeaning.BatchMeansSingles` | socket/mysql/sqler.go:636-698 | With one key column, distinct keys and equal columns, the statement and the single updates turn any table into the same table, increments and every map order included. |
| `SessionIds.PackDecodes` | socket/sessionmanager.go:124-131 | The three fields of an id can be read back from it. |
| `SessionIds.IdsGrow` | socket/sessionmanager.go:104-132 | All non-zero ids of a manager grow strictly, from any state it can be created in. |
| `SessionIds.IdsDecode` | socket/sessionmanager.go:104-132 | Every non-zero id decodes to the second it was made in, a sequence number from 1 on, and the key. |
| `SessionIds.KeysApart` | socket/sessionmanager.go:104-132 | Managers with different keys never share a non-zero id. |
| `SessionIds.IdsPerSecond` | socket/sessionmanager.go:113-118 | At most 65535 ids are issued in one second. |
| `SessionIds.IdsExactly` | socket/sessionmanager.go:104-132 | An id of a new manager is 0 exactly when the key is above 255 or 65535 ids were asked for in the same second before; otherwise it is second * 2^24 + number within the second * 2^8 + key. |
| `SessionIds.NetSessionManager.GenSessionId` | socket/sessionmanager.go:104-132 | A non-zero id is new: it differs from every id the manager made before, registered or not. |
| `SessionIds.NetSessionManager.Add` | socket/sessionmanager.go:51-60 | Registers the session under its new id, which differs from every id made before unless it is 0; the duplicate panic can only happen for id 0, and exactly then when 0 is in use. |
| `SessionIds.NetSessionManager.Remove` | socket/sessionmanager.go:62-71 | Removes exactly the session's id and keeps every id in use explained. |
| `SessionIds.NetSessionManager.GetSession` | socket/sessionmanager.go:73-78 | None exactly for ids that are not registered; a session is only found under an id this manager made with its own key, or under 0. |
| `ServiceIds.DecimalParses` | service/etcddesc.go:85-92 | A printed integer parses back exactly when it fits 32 bits, and is refused otherwise. |
| `Decimals.DecimalShape` | service/etcddesc.go:35-42 | Numbers are printed without leading zeros, with a sign only when negative. |
| `ServiceIds.NumberParsesExactly` | service/etcddesc.go:85-92 | A text parses exactly if it is digits behind at most one sign and the number fits 32 bits. |
| `ServiceIds.ParseReads` | service/etcddesc.go:94-121 | Zone, type and index stand behind the first '#' with '@' between them; whatever follows another '@' or '#' is ignored, and of numbers that do not parse those before the first bad one are returned with the error. |
| `ServiceIds.ParseRejects` | service/etcddesc.go:94-103 | Every text that is not of this shape is an error without any number. |
| `ServiceIds.KeyTexts` | service/etcddesc.go:34-63 | Registered keys and discovery prefixes, letter by letter, for a gate. |
| `ServiceIds.NoService` | service/etcddesc.go:68-74 | A key without '/' names no service. |
| `ServiceIds.ServiceIDReadsBack` | service/etcddesc.go:35-121 | For a name without '#', parsing recovers type, zone and index from the printed id if and only if all three fit 32 bits. |
| `ServiceIds.KeyGivesID` | service/etcddesc.go:60-74 | The registered key gives its id back if and only if the name has no '/'. |
| `ServiceIds.DiscoveryFinds` | service/etcddesc.go:52-63 | A discovery prefix finds a registered service if and only if the names agree and, for a zone above 0, the decimal of the service's zone starts with that of the zone asked for. |
| `BitMaps.CountIsSize` | util/bitmap.go:63-77 | The number of one bits of all bytes is the size of the set they stand for. |
| `BitMaps.BitSetLayout` | util/bitmap.go:27-34 | Number n stands for bit n mod 8, counted from the lowest, of byte n / 8. |
| `BitMaps.BitSetAdd` | util/bitmap.go:16-25 | Setting the bit adds exactly that number to the set. |
| `BitMaps.BitSetRemove` | util/bitmap.go:35-44 | Clearing the bit removes exactly that number. |
| `BitMaps.BitMap.constructor` | util/bitmap.go:11-14 | An empty set with room for every number up to the maximum. |
| `BitMaps.BitMap.Add` | util/bitmap.go:16-25 | The number joins the set unless above the maximum; the counter drifts from the size by one exactly when it was present. |
| `BitMaps.BitMap.Remove` | util/bitmap.go:35-44 | The number leaves the set; the counter drifts by one exactly when it was absent. |
| `BitMaps.BitMap.IsExist` | util/bitmap.go:27-34 | Membership in the set. |
| `BitMaps.BitMap.SetBites` | util/bitmap.go:53-56 | Takes the slice over and ends all drift. |
| `BitMaps.BitMap.CntNumProcess` | util/bitmap.go:63-77 | The nested loops leave the size of the set in the counter, as a 32-bit number. |
| `Calendar.NextMonday` | util/timer.go:152-176 | For ms > 0 the result is the least Monday 05:00 strictly after ms. |
| `Calendar.ReachedExactly` | util/timer.go:223-241 | The 05:00 of a day has come by ms exactly when the day lies before today, or is today at hour 5 or later. |
| `Calendar.KnownInstants` | util/timer.go:64-68 | Fixed instants: the epoch is a Thursday at 8 o'clock, and 1704056400000 is the Monday 05:00 of 2024-01-01, the boundary itself included in the next week. |
| `Calendar.DurationCounts` | util/timer.go:223-241 | For t1 <= t2 the result less one is the number of 05:00 instants in (t1, t2]. |
| `Calendar.DurationAdds` | util/timer.go:223-241 | Adjoining spans share no such instant and miss none, so the counts add up. |

## Left out

- TimingWheel.TimeWheel.AddTask: an object without a key that is added while it is linked gets its place stated, but then has one circle for two entries, and the contracts of the other operations no longer apply.
- TimingWheel.NewTimeWheel: a wheel without slots can be made; its ticks and additions, which panic, are not modelled, and negative slot numbers are not either.
- TimingWheel.TimeWheel.Update: asks that the ticks due end; `WheelClock.PatientTicks` and `Wheel.WalkEndsExactly` say when.
- Teardown.ReadFailureEnds: a scheduler that never runs the reader keeps the session at the failed read, and in `Teardown.CloseEnds` at the read; a peer that stalls is taken to stall for good.
- Messaging.SendMessage: RSA, AES, base64 and the message codecs are taken as functions with the stated inverses; the wrong-key and marshalling errors of the libraries are one error each.
- SingleUpdate.BuildData: the map branch with an empty `translate` hook; the WHERE clause of a single update is whatever its caller adds, taken here to be the item's keys.
- SessionIds.NetSessionManager.Remove: does not model the session's "user" context entry and the counter behind `SessionNum`, which `Add` never increments.
- BitMaps.BitMap.Add: asks for a slice that reaches the number; after `SetBites` with a shorter slice the source panics.
- Keys of timers are integers that stand for any comparable Go value; user data and types of timer tasks are left out.
- Delays of 2^63 intervals or more, whose conversion to `int` wraps, are not modelled, and neither is the wrap-around of 64-bit millisecond clocks.
- Runes are Dafny characters; text that is not valid UTF-8 is not modelled.
- Values that `utils_ParseStr` prints as dates, and Go values other than integers and strings, appear only as the text `fmt.Sprint` gives them.
- Reserved words and backquoted names with blanks as column names, the result type of a CASE with mixed branches, and type conversion of stored values are left to `BatchMeaning.Db` or not modelled.
- `HeartBeat`, the websocket session, connector `Stop` and restart: an endless extra sender, a repetition of the TCP session, and a flag that is never cleared.
- Decoding of received messages into events, logging, and the `SessionConnected` and `SessionConnectError` events.
- `GetAESKey` and the random default vector: the default vector is a parameter of `Cipher.Aes`.
- `buildData` for a list of maps, `buildUnion`, `parseWhere`, the other statement builders and `SqlValuesInsertBatch`.
- `GetLatestMonth5Hour`, `IsInSameWeek`, timers with `Suspend` and `Resume`, and historical daylight saving of the zone.
- etcd, redis, MySQL and elastic clients, HTTP, yaml and flags: input and output, not part of this model.
