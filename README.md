# tupler, modelled in Dafny

tupler is a small terminal client for the Zulip chat server. This project models its two core files:

- `tupler/tupler_zulip_client.py` is the event-queue client:
  - the endpoint table;
  - queue registration and the stale-queue recovery in `get_events_from_queue`;
  - the message normaliser `get_message`;
  - the `message_loop` generator, which yields messages and an idle marker after every poll cycle;
  - the history query and the in-place HTML-to-text rewrite of the unread messages;
  - the subscription helpers;
  - the form payloads of the two send functions.
- `tupler/tupler_main.py` is the terminal front end:
  - the "show only what changed" rule;
  - the exact writes of `_display_message`;
  - the composer `_message_mode`;
  - the key bindings;
  - the dispatch loop of `_main`.

HTTP is abstract. Each operation returns the request values it would send. The decoded JSON bodies of the server's replies are an input sequence, consumed in order. The curses window is a log of `(text, colour)` writes. What is typed at the keyboard is an input sequence too: at each idle marker `_main` reads one item, holding a key code and the text typed into the composer's boxes. Where a malformed reply makes Python raise `KeyError` or `TypeError`, the model returns an `Err` value. `MissingKey` and `WrongType` name the key; `NotAnObject` stands for a value that should have been an object. In some places the model also refuses a value of the wrong JSON type that Python would accept or iterate over; "## Left out" lists each of them. `NoReply` means the model's list of replies ran out, and has no Python counterpart.

Files:

- `wrappers.dfy`: the `Option` and `Result` types.
- `text.dfy` (module `Text`) holds stand-ins for the Python built-ins the code uses:
  - `"{}".format(n)` for integers;
  - `str.strip()`, with Python's full `isspace` set;
  - a reader for `key=value&…` bodies. The payload builders are proved against it.
- `zulip_client.dfy` (module `ZulipClient`): the client.
- `tupler_main.dfy` (module `TuplerMain`): the front end.

The model follows the code where the behaviour described for the program differs from it:

- The content of live messages is passed through raw, markup included (`tupler/tupler_zulip_client.py:105`, `191`). Only the unread path turns markup into text (`143`). `ZulipClient.WrappedEnvelopeExample` pins this down.
- The cursor obtained while recovering from a stale queue is never handed back to `message_loop` (`92-93`). The loop keeps its registered queue id and polls it again in the next cycle (`ZulipClient.RecoveredCursorDiscarded`).
- The idle marker is yielded after every poll cycle, including cycles that had messages (`190-195`: the `for … else` has no `break`).
- Nothing makes event ids increase. `last_event_id` becomes the id of each message as it is yielded, whatever that id is (`192`).
- The event id always comes from the `id` key of the outer object (`106`).

## Model

| member | source | states |
|---|---|---|
| ZulipClient.GetEndpoint | tupler/tupler_zulip_client.py:41-48 | the url is the server, `/api/v1/`, then `register` for `queue`, `users/me/subscriptions` for `subscriptions`, and the type itself for any other type |
| ZulipClient.EndpointAliases | tupler/tupler_zulip_client.py:38-48 | the two renamed types give the same url as the paths they stand for |
| ZulipClient.EndpointInjective | tupler/tupler_zulip_client.py:41-48 | two types outside the table that give the same url are equal |
| ZulipClient.ReadCursor | tupler/tupler_zulip_client.py:79-82 | a registration reply gives a cursor exactly when it has a string `queue_id` and an integer `last_event_id`, and the cursor holds those two values |
| ZulipClient.RegisterRequest | tupler/tupler_zulip_client.py:75-78 | the registration is a form POST to the `register` url whose only field asks for `["message"]` events |
| ZulipClient.EventsUrlForm | tupler/tupler_zulip_client.py:86-88 | the poll url is the `events` endpoint, `?`, then the form body of the fields `queue_id`, `last_event_id` and `dont_block=true` |
| ZulipClient.PollRequest | tupler/tupler_zulip_client.py:86-89 | the poll is a GET without parameters; the cursor travels only in the url |
| ZulipClient.EventsUrlQuery | tupler/tupler_zulip_client.py:86-88 | when the server address has no `?` and the queue id no `&`: cut at its first `?`, the poll url is the `events` endpoint followed by exactly the three fields `queue_id`, `last_event_id` and `dont_block=true`, and the event id reads back as the cursor's |
| ZulipClient.EventsUrlSplit | tupler/tupler_zulip_client.py:86-88 | when the server address has no `?`: the first `?` of the poll url is the one after the endpoint |
| ZulipClient.GetEventsFromQueue | tupler/tupler_zulip_client.py:85-94 | the first request is always the poll at the given cursor; the replies left are a suffix of those given; every request but a last unanswered one consumes exactly one reply |
| ZulipClient.PollAnswered | tupler/tupler_zulip_client.py:91-94 | on success, the events list is that of the last reply the poll consumed, unchanged, and every reply before it belongs to a recovery: a stale reply followed by a registration |
| ZulipClient.PollFailures | tupler/tupler_zulip_client.py:89-94 | a poll succeeds only if the reply has a `result`, and after a stale reply only if a valid registration follows |
| ZulipClient.PollFresh | tupler/tupler_zulip_client.py:91-94 | a reply that is not stale ends the poll; on success it consumed that reply alone |
| ZulipClient.PollStale | tupler/tupler_zulip_client.py:91-93 | after a stale reply and a registration, the poll sends its poll and the registration, then exactly the requests of the poll at the new cursor, and ends with that poll's result and remaining replies |
| ZulipClient.RecoveryShift | tupler/tupler_zulip_client.py:91-93 | one more recovery in front of a properly answered poll leaves it properly answered |
| ZulipClient.PollWithoutRecovery | tupler/tupler_zulip_client.py:89-94 | a fresh reply with events: one request, and the list is returned as it is |
| ZulipClient.StaleQueueRecovery | tupler/tupler_zulip_client.py:91-93 | a stale reply, a registration, then events: poll, register, poll at the new cursor, and the events come back once |
| ZulipClient.GetMessage | tupler/tupler_zulip_client.py:97-107 | the record's event id always comes from the outer object, even when the other fields come from a nested `message` |
| ZulipClient.GetMessageShape | tupler/tupler_zulip_client.py:97-107 | a record is made exactly for well-formed envelopes; its four fields come from the nested `message` object when there is one, else from the top level |
| ZulipClient.WrappedEnvelopeExample | tupler/tupler_zulip_client.py:97-107 | a wrapped stream message normalises to one record, its content markup kept raw |
| ZulipClient.PrivateMessageExample | tupler/tupler_zulip_client.py:97-107 | a bare private message keeps its participant list as its recipient |
| ZulipClient.NormalizeAll | tupler/tupler_zulip_client.py:190-191 | every event up to the first refused one becomes its record, in order; the failure names the first refused event's error |
| ZulipClient.NormalizedPrefix | tupler/tupler_zulip_client.py:190-191 | any records and failure that meet that description are the ones produced |
| ZulipClient.LastEventIdMessages | tupler/tupler_zulip_client.py:190-192 | after a run of messages the last event id is that of the last one, or unchanged if there were none |
| ZulipClient.Cycle | tupler/tupler_zulip_client.py:189-195 | the queue id stays; the last event id is that of the last message yielded; a cycle that ends normally yields only messages, then exactly one idle marker |
| ZulipClient.CycleItems | tupler/tupler_zulip_client.py:190-195 | the items of a cycle are its records in order, then one idle marker unless a record was refused |
| ZulipClient.CycleReceivedOrder | tupler/tupler_zulip_client.py:189-193 | a cycle sends what the poll sent; each message it yields is the record of the event at the same position; with no failure it yields one item more than there were events |
| ZulipClient.CycleOfEvents | tupler/tupler_zulip_client.py:189-195 | an answered cycle yields the messages of its events, then the idle marker, and moves the cursor to the last event id yielded |
| ZulipClient.EmptyCycle | tupler/tupler_zulip_client.py:190-195 | an answered poll with no events still yields the idle marker, and the cursor stays |
| ZulipClient.Cycles | tupler/tupler_zulip_client.py:188-195 | the queue id never changes; `n` completed cycles yield exactly `n` idle markers, the last item being one of them |
| ZulipClient.MessageLoop | tupler/tupler_zulip_client.py:186-195 | the loop registers once, then runs its cycles, and yields and sends exactly what the cycle-by-cycle definition gives |
| ZulipClient.PollCycle | tupler/tupler_zulip_client.py:189-195 | one pass of the loop body yields, sends and moves the cursor exactly as one cycle does |
| ZulipClient.RecoveredCursorDiscarded | tupler/tupler_zulip_client.py:186-193 | after a recovery in the first cycle, the second cycle polls the originally registered queue id at the last event id yielded, not at the renewed cursor |
| ZulipClient.CyclesFirstPoll | tupler/tupler_zulip_client.py:188-189 | every run of one or more cycles starts with a poll at its cursor |
| ZulipClient.LoopRun | tupler/tupler_zulip_client.py:186-195 | the loop sends the registration first, then, given a valid registration reply and at least one cycle, a poll at the registered cursor; a run without failure yields one idle marker per cycle |
| ZulipClient.MessageContentParser.constructor | tupler/tupler_zulip_client.py:16-18 | a new parser's buffer is empty |
| ZulipClient.MessageContentParser.HandleData | tupler/tupler_zulip_client.py:20-21 | each run of text is appended to the buffer |
| ZulipClient.MessageContentParser.Collect | tupler/tupler_zulip_client.py:23-24 | collecting returns the buffer |
| ZulipClient.HtmlText | tupler/tupler_zulip_client.py:126-132 | the text exists exactly when the message is an object with a string `content`, and it is the runs of text of that markup joined in order |
| ZulipClient.ParseHtmlContent | tupler/tupler_zulip_client.py:126-132 | feeding a fresh parser and collecting gives that text, or the error for a missing or non-string content |
| ZulipClient.HtmlTextOfPlainRun | tupler/tupler_zulip_client.py:126-132 | markup that is one run of text comes back unchanged |
| ZulipClient.StripOne | tupler/tupler_zulip_client.py:142-143 | rewriting one message fails exactly when its content cannot be read |
| ZulipClient.StripContents | tupler/tupler_zulip_client.py:142-143 | on success, every message is rewritten, one for one and in order |
| ZulipClient.StripContentsAll | tupler/tupler_zulip_client.py:142-143 | when every message can be rewritten, the result is the list of rewritten messages |
| ZulipClient.StripContentsFails | tupler/tupler_zulip_client.py:142-143 | the first message that cannot be rewritten decides the error |
| ZulipClient.UnreadMessages | tupler/tupler_zulip_client.py:135-144 | on success the reply has a `messages` list, and the i-th record is the record of the i-th listed message after its content was rewritten to the text of its markup |
| ZulipClient.GetUnreadMessages | tupler/tupler_zulip_client.py:135-144 | sends the first-unread history query, rewrites the contents in place in the array one at a time, and returns what the specification function gives |
| ZulipClient.UnreadContentIsText | tupler/tupler_zulip_client.py:141-144 | a bare unread message keeps its record, except that its content becomes the text of its markup |
| ZulipClient.UnreadEnvelopeKeepsRawContent | tupler/tupler_zulip_client.py:141-144 | for a wrapped unread message only the top-level content is rewritten, so its record keeps the nested raw content |
| ZulipClient.OldMessagesParams | tupler/tupler_zulip_client.py:116-120 | `anchor`, `num_before` and `num_after` are always set; `use_first_unread_anchor='true'` and `narrow='[]'` are set exactly when the flag is |
| ZulipClient.OldMessagesFlagOnlyAdds | tupler/tupler_zulip_client.py:118-120 | the flag adds its two parameters and changes none of the other three |
| ZulipClient.GetOldMessages | tupler/tupler_zulip_client.py:114-123 | a GET of the `messages` endpoint |
| ZulipClient.SubscriptionList | tupler/tupler_zulip_client.py:162-165 | a list is passed through unchanged; any other value becomes a one-element list |
| ZulipClient.SubscriptionJson | tupler/tupler_zulip_client.py:155-156 | one `{"name": n}` object per name, in order |
| ZulipClient.SubscriptionBody | tupler/tupler_zulip_client.py:166-167 | the subscribe body is the form body of the single field `subscriptions`, which holds the encoded list |
| ZulipClient.SubscribeToStreams | tupler/tupler_zulip_client.py:159-169 | a POST to the `users/me/subscriptions` endpoint |
| ZulipClient.SubscriptionBodyField | tupler/tupler_zulip_client.py:166-167 | when the encoded list has no `&`, the subscribe body reads back as the single form field `subscriptions` holding the encoded list |
| ZulipClient.SubscriptionNames | tupler/tupler_zulip_client.py:147-152 | on success, one name per subscription: each subscription is an object with a `name`, and the i-th name is the `name` of the i-th subscription |
| ZulipClient.GetSubscriptionsRequest | tupler/tupler_zulip_client.py:148-150 | a GET of the `users/me/subscriptions` url, without parameters |
| ZulipClient.GetSubscriptions | tupler/tupler_zulip_client.py:147-152 | on success the reply has a `subscriptions` list, and the i-th name is the `name` of its i-th object |
| ZulipClient.SubscriptionNamesRoundTrip | tupler/tupler_zulip_client.py:147-156 | reading names back from the subscription objects built for them gives the names |
| ZulipClient.SubscriptionsRoundTrip | tupler/tupler_zulip_client.py:147-165 | a subscriptions reply listing the objects built for a subscribe argument gives back its wrapped list |
| ZulipClient.SendStreamMessage | tupler/tupler_zulip_client.py:172-176 | a POST to the `messages` endpoint |
| ZulipClient.SendPrivateMessage | tupler/tupler_zulip_client.py:179-183 | a POST to the `messages` endpoint |
| ZulipClient.StreamPayload | tupler/tupler_zulip_client.py:174-175 | the stream payload is the unescaped form body of the fields `type=stream`, `to`, `subject` and `content`, in that order |
| ZulipClient.PrivatePayload | tupler/tupler_zulip_client.py:181-182 | the private payload is the unescaped form body of the fields `type=private`, `to` and `content`, in that order |
| ZulipClient.StreamPayloadRoundTrip | tupler/tupler_zulip_client.py:174-175 | with no `&` in the values, the stream payload reads back as its four fields |
| ZulipClient.PrivatePayloadRoundTrip | tupler/tupler_zulip_client.py:181-182 | with no `&` in the values, the private payload reads back as its three fields |
| ZulipClient.StreamPayloadFieldCount | tupler/tupler_zulip_client.py:174-175 | nothing is escaped: every `&` in a value makes one more form field |
| ZulipClient.PrivatePayloadFieldCount | tupler/tupler_zulip_client.py:181-182 | nothing is escaped: every `&` in a value makes one more form field |
| Text.IntRoundTrip | tupler/tupler_zulip_client.py:87-88 | the decimal text of the event id put in the poll url reads back as the same integer |
| Text.IntToString | tupler/tupler_zulip_client.py:87-88 | the decimal text of an event id is never empty, starts with `-` exactly for a negative id, is digits after that, and is not padded: its digits start with `0` only for zero |
| Text.IntToStringInjective | tupler/tupler_zulip_client.py:87-88 | two event ids give the same text only if they are equal |
| Text.FormRoundTrip | tupler/tupler_zulip_client.py:174-175 | a form body of one or more fields, with no `&` or `=` in the keys and no `&` in the values, reads back as those fields |
| Text.Strip | tupler/tupler_main.py:98 | the stripped text has no whitespace at either end |
| Text.StripSlice | tupler/tupler_main.py:98 | the stripped text is a middle slice of the input, cut between ends made only of whitespace |
| Text.StripIdempotent | tupler/tupler_main.py:98 | stripping twice is stripping once |
| Text.StripKeepsTrimmed | tupler/tupler_main.py:98 | a text with no whitespace at either end is left as it is |
| TuplerMain.ShouldPrint | tupler/tupler_main.py:28-35 | with no previous message every component is shown; after one, each of sender, recipient and subject is shown exactly when it differs from the previous message's |
| TuplerMain.Window.AddStr | tupler/tupler_main.py:41-53 | each write is appended to the window's log, with its colour pair |
| TuplerMain.HeaderWrites | tupler/tupler_main.py:42-52 | a private message has no header; a stream message has one exactly when its recipient or its subject is shown, and it ends with the newline |
| TuplerMain.DisplayHeader | tupler/tupler_main.py:42-52 | the header writes of a stream message, in order; nothing for a private message |
| TuplerMain.DisplayMessage | tupler/tupler_main.py:38-53 | the log grows by exactly the sender line, the header and the content line that the display rule gives |
| TuplerMain.MessageWrites | tupler/tupler_main.py:38-53 | the content line is always written, and written last; a shown sender line is written first |
| TuplerMain.HeaderColors | tupler/tupler_main.py:42-52 | the header never writes in the sender's colour, and writes in the default colour only the separator and the newline |
| TuplerMain.SenderLine | tupler/tupler_main.py:40-41 | the sender line is written exactly when the sender is to be shown |
| TuplerMain.PrivateWritesNoHeader | tupler/tupler_main.py:42-53 | a private message writes only its sender line and its content line |
| TuplerMain.Separator | tupler/tupler_main.py:45-50 | ` > ` is written exactly for a stream message that shows both its recipient and its subject |
| TuplerMain.HeaderNewline | tupler/tupler_main.py:51-53 | the header newline comes just before the content line exactly when a stream message shows its recipient or its subject |
| TuplerMain.StreamParts | tupler/tupler_main.py:45-50 | a shown recipient is written in yellow and a shown subject in blue |
| TuplerMain.StreamColors | tupler/tupler_main.py:45-50 | yellow appears exactly when the recipient is shown, and blue exactly when the subject is |
| TuplerMain.WithoutColor | tupler/tupler_main.py:45-50 | a recipient that is not shown leaves yellow out of the message's writes, and a subject that is not shown leaves out blue |
| TuplerMain.FirstStreamMessage | tupler/tupler_main.py:28-53 | with no previous message, a stream message writes all six parts in order |
| TuplerMain.SameThread | tupler/tupler_main.py:28-53 | the same sender, recipient and subject as before: only the content line is written |
| TuplerMain.Keybinding | tupler/tupler_main.py:115 | `p` opens the private composer, `s` the stream composer, and no other key is bound; `q` is not bound |
| TuplerMain.Boxes | tupler/tupler_main.py:75-91 | the boxes in order: recipient, the subject only for a stream message, content |
| TuplerMain.Components | tupler/tupler_main.py:75-98 | two stripped components for a private message, three for a stream message, in the order recipient, subject, content |
| TuplerMain.ModeRequest | tupler/tupler_main.py:98-99 | the composer sends the stripped recipient, the stripped subject for a stream message, and the stripped content, through the private or stream send function, in its argument order |
| TuplerMain.ComponentsTrimmed | tupler/tupler_main.py:98 | every component sent is already stripped |
| TuplerMain.MessageMode | tupler/tupler_main.py:68-103 | builds the boxes by appending, strips each, and returns the components and the send request that the composer's definition gives |
| TuplerMain.ReadKey | tupler/tupler_main.py:140-150 | the action taken at an idle marker is the one the key-dispatch rule gives |
| TuplerMain.Act | tupler/tupler_main.py:140-150 | at an idle marker, `q` and only `q` quits; a message is sent exactly for a bound key, and it is that key's composer request for the typed text; anything else is ignored |
| TuplerMain.React | tupler/tupler_main.py:141-150 | a read always consumes one key, writes nothing and keeps the previous message; the session ends exactly when the action is to quit or it had already ended, and a request is added exactly when the action sends one |
| TuplerMain.Step | tupler/tupler_main.py:139-153 | only a message writes, and it becomes the previous message; only an idle marker reads a key, and only that read can send or quit |
| TuplerMain.TakeItem | tupler/tupler_main.py:139-153 | one turn of the loop writes what that item writes, and ends in the state one step of the dispatch gives |
| TuplerMain.ShowBacklog | tupler/tupler_main.py:134-136 | every unread message is displayed in full, in order |
| TuplerMain.Backlog | tupler/tupler_main.py:134-136 | the backlog writes nothing exactly when there are no unread messages; each writes at least its content line, and the last message's content line comes last |
| TuplerMain.MainLoop | tupler/tupler_main.py:134-154 | the window, the requests sent, the previous message and the quit flag end as the whole-session definition gives |
| TuplerMain.Dispatch | tupler/tupler_main.py:139-154 | once `q` was read nothing changes any more, and keys are only ever consumed |
| TuplerMain.QuitIgnoresRest | tupler/tupler_main.py:143-145 | once `q` is read, the items after it change nothing |
| TuplerMain.IdleWithoutCommand | tupler/tupler_main.py:140-150 | no key, or a key other than `q` that is bound to nothing, only uses up that read |
| TuplerMain.IdleCommand | tupler/tupler_main.py:140-150 | at an idle marker a bound key adds exactly its composer's request, and nothing else changes but the read count |
| TuplerMain.PrevIsLastMessage | tupler/tupler_main.py:138-153 | without a quit, the previous message ends as the last message among the items; idle markers never replace it |
| TuplerMain.DispatchKeepsWrites | tupler/tupler_main.py:134-154 | what the write log and the sent requests held before stays, in front |
| TuplerMain.MainSession | tupler/tupler_main.py:134-154 | the whole session's write log starts with the unread messages, each shown in full |

## Left out

- HTTP: `authenticated_get`, `authenticated_post` and the `requests` calls. Each operation returns the request it would send, and the server's decoded replies are inputs. Credentials travel in the request only as the server address; the transport adds authentication.
- `check_response` is applied with a bare `@wraps`, so it never raises. No status check is modelled.
- JSON decoding (`.json()`) is left out; replies come in decoded. A reply is always a JSON object (`Reply` is a map from keys to values). A reply whose body decodes to a list, a string or a number cannot be written down, whereas Python raises `TypeError` on indexing it (`tupler/tupler_zulip_client.py:80`, `91`, `141`, `152`). `json.dumps` in `_get_subscription_body` is the parameter `dumps`.
- HTML tokenisation (`HTMLParser.feed`) is library behaviour. It is the parameter `tokenize`, which gives the runs of text the tokenizer reports. The parser is never closed, as in the code.
- The curses layer is left out:
  - colour initialisation and terminal set-up and teardown;
  - `window.clear`, `nodelay` and `refresh`;
  - the help text, `Textbox` editing and `rectangle` drawing in `_message_mode`.
  The text typed into the boxes is the input `Draft`.
  The window is a log of the writes made to it. `_message_mode` clears the window (`tupler/tupler_main.py:69`, `101`), so after a composer has run the screen shows less than the log holds.
- `argparse`, the credentials file (`_get_credentials`) and `sleep(1)`: process glue and timing.
- The generator's laziness: `message_loop` runs for a bounded number of poll cycles over a finite list of replies. Running out of replies ends it with the model-only error `NoReply`.
- `_main` takes the unread records and the message loop's items as inputs. It does not call `get_unread_messages` and `message_loop` itself. The default window of `get_unread_messages`, 10 messages on either side of the anchor, is a pair of parameters of `GetUnreadMessages` that the caller supplies.
- `get_new_messages` is a plain alias of `get_events_from_queue`, so it has no member of its own.
- The send functions and `subscribe_to_streams` return the server's response (`tupler/tupler_zulip_client.py:169`, `176`, `183`); the model returns only the request. `_message_mode` discards the response (`tupler/tupler_main.py:99`), and nothing else in the code uses it.
- The colour pair numbers are not modelled. `_initialize_colors` sets pairs 2, 3 and 4 to green, yellow and blue (`tupler/tupler_main.py:56-61`), and the model's writes carry those colours by name.
- GetMessage: a value of the wrong JSON type (a non-string sender, subject or content, a `display_recipient` that is neither a string nor a list, or a non-integer `id`) is refused with `WrongType`. Python would build the record anyway.
- ReadCursor: a `queue_id` that is not a string or a `last_event_id` that is not an integer is refused with `WrongType`. Python would carry them into the url.
- GetEventsFromQueue: an `events` value that is not a list is refused with `WrongType`. Python iterates over whatever value is there (`tupler/tupler_zulip_client.py:94`, `190`): an empty object or an empty string gives no messages, and `message_loop` yields the idle marker and polls again.
- GetEventsFromQueue: the recursion on stale replies is unbounded in the model. In Python, a long enough run of stale replies ends with `RecursionError`.
- GetSubscriptions: a `subscriptions` value that is not a list is refused with `WrongType`. Python iterates over it (`tupler/tupler_zulip_client.py:152`): an empty object or string gives `[]`.
- UnreadMessages: a `messages` value that is not a list is refused with `WrongType`. Python would iterate over it.
- Act: a key code above `0x10FFFF`, for which `chr` raises `ValueError`, is taken as an unbound key.
- The unread list's dictionaries are values in a Dafny array. The model does not capture aliasing between them and other references.
- `Text.ParseNat` and `Text.ParseInt` exist only to read numbers back in the round-trip lemmas. They are total helpers, not parts of the program.
