/**
 * The terminal front end of tupler (tupler/tupler_main.py): which parts of a
 * message are shown, what is written to the screen for it, how the message
 * composer assembles what it sends, and how the main loop dispatches on the
 * items of the message loop and on the keys typed at each idle marker.
 *
 * The screen is a log of the strings written to it, each with its colour pair.
 * Keys and the text typed into the composer's boxes are inputs.
 */
module TuplerMain {
  import opened Wrappers
  import opened Text
  import opened ZulipClient

  // ---------------------------------------------------------------------
  // Which parts of a message are shown

  datatype Component = SenderPart | RecipientPart | SubjectPart

  /** The value of one component of a message, as compared with the previous message's. */
  datatype Part = Named(text: string) | Addressed(recipient: Recipient)

  function PartOf(m: Message, c: Component): Part
  {
    match c
    case SenderPart => Named(m.sender)
    case RecipientPart => Addressed(m.recipient)
    case SubjectPart => Named(m.subject)
  }

  /** A component is shown for the first message, and afterwards exactly when it differs from the previous message's. */
  function ShouldPrint(m: Message, prev: Option<Message>, c: Component): (shown: bool)
    ensures prev.None? ==> shown
    ensures prev.Some? && c == SenderPart ==> (shown <==> m.sender != prev.value.sender)
    ensures prev.Some? && c == RecipientPart ==> (shown <==> m.recipient != prev.value.recipient)
    ensures prev.Some? && c == SubjectPart ==> (shown <==> m.subject != prev.value.subject)
  {
    if prev.None? then true
    else if PartOf(m, c) == PartOf(prev.value, c) then false
    else true
  }

  // ---------------------------------------------------------------------
  // The screen

  /** The colour pairs in use: the default pair 0, and pairs 2, 3 and 4. */
  datatype Color = Plain | Green | Yellow | Blue

  /** One string written to the screen, in one colour pair. */
  datatype Write = Write(text: string, color: Color)

  /** The curses window, as the log of what was written to it. */
  class Window {
    var log: seq<Write>

    constructor()
      ensures log == []
    {
      log := [];
    }

    method AddStr(text: string, color: Color)
      modifies this
      ensures log == old(log) + [Write(text, color)]
    {
      log := log + [Write(text, color)];
    }
  }

  /** The header line of a stream message: recipient, separator, subject and newline, each when due. */
  function HeaderWrites(m: Message, prev: Option<Message>): (w: seq<Write>)
    ensures m.recipient.Private? ==> w == []
    // a header is written exactly when the recipient or the subject is shown, and it ends the line
    ensures m.recipient.Stream? ==> (w != [] <==> ShouldPrint(m, prev, RecipientPart) || ShouldPrint(m, prev, SubjectPart))
    ensures w != [] ==> w[|w| - 1] == Write("\n", Plain)
  {
    match m.recipient
    case Private(_) => []
    case Stream(name) =>
      var r := ShouldPrint(m, prev, RecipientPart);
      var s := ShouldPrint(m, prev, SubjectPart);
      (if r then [Write(name, Yellow)] else [])
      + (if r && s then [Write(" > ", Plain)] else [])
      + (if s then [Write(m.subject, Blue)] else [])
      + (if r || s then [Write("\n", Plain)] else [])
  }

  /** Everything `_display_message` writes for `m`, after the message `prev`. */
  function MessageWrites(m: Message, prev: Option<Message>): (w: seq<Write>)
    // the content line is always written, and written last
    ensures |w| > 0 && w[|w| - 1] == Write(m.content + "\n", Plain)
    // a shown sender line comes first
    ensures ShouldPrint(m, prev, SenderPart) ==> w[0] == Write(m.sender + "\n", Green)
  {
    (if ShouldPrint(m, prev, SenderPart) then [Write(m.sender + "\n", Green)] else [])
    + HeaderWrites(m, prev)
    + [Write(m.content + "\n", Plain)]
  }

  /** The header part of `_display_message`: nothing for a private message. */
  method DisplayHeader(window: Window, m: Message, prev: Option<Message>)
    modifies window
    ensures window.log == old(window.log) + HeaderWrites(m, prev)
  {
    match m.recipient
    case Private(_) =>
    case Stream(name) =>
      var showRecipient := ShouldPrint(m, prev, RecipientPart);
      var showSubject := ShouldPrint(m, prev, SubjectPart);
      var w1 := if showRecipient then [Write(name, Yellow)] else [];
      var w2 := if showRecipient && showSubject then [Write(" > ", Plain)] else [];
      var w3 := if showSubject then [Write(m.subject, Blue)] else [];
      var w4 := if showRecipient || showSubject then [Write("\n", Plain)] else [];
      ghost var start := window.log;
      if showRecipient {
        window.AddStr(name, Yellow);
      }
      assert window.log == start + w1;
      if showRecipient && showSubject {
        window.AddStr(" > ", Plain);
      }
      assert window.log == start + w1 + w2;
      if showSubject {
        window.AddStr(m.subject, Blue);
      }
      assert window.log == start + w1 + w2 + w3;
      if showRecipient || showSubject {
        window.AddStr("\n", Plain);
      }
      assert window.log == start + w1 + w2 + w3 + w4;
      Assoc5(start, w1, w2, w3, w4);
  }

  method DisplayMessage(window: Window, m: Message, prev: Option<Message>)
    modifies window
    ensures window.log == old(window.log) + MessageWrites(m, prev)
  {
    ghost var start := window.log;
    var head := if ShouldPrint(m, prev, SenderPart) then [Write(m.sender + "\n", Green)] else [];
    if ShouldPrint(m, prev, SenderPart) {
      window.AddStr(m.sender + "\n", Green);
    }
    assert window.log == start + head;
    DisplayHeader(window, m, prev);
    ghost var header := HeaderWrites(m, prev);
    assert window.log == start + head + header;
    window.AddStr(m.content + "\n", Plain);
    Assoc(start + head, header, [Write(m.content + "\n", Plain)]);
    Assoc(start, head, header + [Write(m.content + "\n", Plain)]);
  }

  /** The header never writes in the sender's green, and in the default colour only ` > ` and the newline. */
  lemma HeaderColors(m: Message, prev: Option<Message>)
    ensures forall x :: x in HeaderWrites(m, prev) ==> x.color != Green
    ensures forall x :: x in HeaderWrites(m, prev) ==> x == Write("\n", Plain) || x.color != Plain || x == Write(" > ", Plain)
  {
  }

  /** The sender line is written exactly when the sender is to be shown. */
  lemma SenderLine(m: Message, prev: Option<Message>)
    ensures Write(m.sender + "\n", Green) in MessageWrites(m, prev) <==> ShouldPrint(m, prev, SenderPart)
  {
    HeaderColors(m, prev);
    var head := if ShouldPrint(m, prev, SenderPart) then [Write(m.sender + "\n", Green)] else [];
    assert MessageWrites(m, prev) == head + HeaderWrites(m, prev) + [Write(m.content + "\n", Plain)];
  }

  /** A private message never writes a recipient, a subject, the separator or a header newline. */
  lemma PrivateWritesNoHeader(m: Message, prev: Option<Message>)
    requires m.recipient.Private?
    ensures forall x :: x in MessageWrites(m, prev) ==> x == Write(m.sender + "\n", Green) || x == Write(m.content + "\n", Plain)
  {
  }

  /** The separator ` > ` is written exactly for a stream message showing both recipient and subject. */
  lemma Separator(m: Message, prev: Option<Message>)
    ensures Write(" > ", Plain) in MessageWrites(m, prev)
            <==> m.recipient.Stream? && ShouldPrint(m, prev, RecipientPart) && ShouldPrint(m, prev, SubjectPart)
  {
    var w := MessageWrites(m, prev);
    var header := HeaderWrites(m, prev);
    var head := if ShouldPrint(m, prev, SenderPart) then [Write(m.sender + "\n", Green)] else [];
    assert w == head + header + [Write(m.content + "\n", Plain)];
    assert (m.content + "\n")[|m.content|] == '\n';
    assert m.content + "\n" != " > ";
    if Write(" > ", Plain) in w {
      var k :| 0 <= k < |w| && w[k] == Write(" > ", Plain);
      assert k >= |head| && k < |head| + |header|;
      assert header[k - |head|] == Write(" > ", Plain);
    }
  }

  /** The header line ends, just before the content line, exactly when a recipient or a subject was shown. */
  lemma HeaderNewline(m: Message, prev: Option<Message>)
    ensures var w := MessageWrites(m, prev);
            (|w| >= 2 && w[|w| - 2] == Write("\n", Plain))
            <==> m.recipient.Stream? && (ShouldPrint(m, prev, RecipientPart) || ShouldPrint(m, prev, SubjectPart))
  {
  }

  /** In a stream message the recipient is written, in yellow, when shown; the subject likewise, in blue. */
  lemma StreamParts(m: Message, prev: Option<Message>)
    requires m.recipient.Stream?
    ensures ShouldPrint(m, prev, RecipientPart) ==> Write(m.recipient.name, Yellow) in MessageWrites(m, prev)
    ensures ShouldPrint(m, prev, SubjectPart) ==> Write(m.subject, Blue) in MessageWrites(m, prev)
  {
    var header := HeaderWrites(m, prev);
    var head := if ShouldPrint(m, prev, SenderPart) then [Write(m.sender + "\n", Green)] else [];
    assert MessageWrites(m, prev) == head + header + [Write(m.content + "\n", Plain)];
    if ShouldPrint(m, prev, RecipientPart) {
      assert header[0] == Write(m.recipient.name, Yellow);
    }
    if ShouldPrint(m, prev, SubjectPart) {
      assert header[|header| - 2] == Write(m.subject, Blue);
    }
  }

  /** Yellow appears on the screen exactly when the recipient is shown, blue exactly when the subject is. */
  lemma StreamColors(m: Message, prev: Option<Message>)
    requires m.recipient.Stream?
    ensures (exists x :: x in MessageWrites(m, prev) && x.color == Yellow) <==> ShouldPrint(m, prev, RecipientPart)
    ensures (exists x :: x in MessageWrites(m, prev) && x.color == Blue) <==> ShouldPrint(m, prev, SubjectPart)
  {
    StreamParts(m, prev);
    if !ShouldPrint(m, prev, RecipientPart) {
      WithoutColor(m, prev, Yellow);
    }
    if !ShouldPrint(m, prev, SubjectPart) {
      WithoutColor(m, prev, Blue);
    }
  }

  /** A stream part that is not shown leaves its colour off the screen. */
  lemma WithoutColor(m: Message, prev: Option<Message>, color: Color)
    requires m.recipient.Stream?
    requires color == Yellow ==> !ShouldPrint(m, prev, RecipientPart)
    requires color == Blue ==> !ShouldPrint(m, prev, SubjectPart)
    requires color == Yellow || color == Blue
    ensures forall x :: x in MessageWrites(m, prev) ==> x.color != color
  {
    var head := if ShouldPrint(m, prev, SenderPart) then [Write(m.sender + "\n", Green)] else [];
    var header := HeaderWrites(m, prev);
    assert forall x :: x in header ==> x.color != color;
    assert MessageWrites(m, prev) == head + header + [Write(m.content + "\n", Plain)];
  }

  /** A first message (and every unread one) shows every part: six writes for a stream message. */
  lemma FirstStreamMessage(m: Message)
    requires m.recipient.Stream?
    ensures MessageWrites(m, None)
            == [Write(m.sender + "\n", Green), Write(m.recipient.name, Yellow), Write(" > ", Plain),
                Write(m.subject, Blue), Write("\n", Plain), Write(m.content + "\n", Plain)]
  {
  }

  /** The same sender, recipient and subject again: only the content is written. */
  lemma SameThread(m: Message, p: Message)
    requires m.sender == p.sender && m.recipient == p.recipient && m.subject == p.subject
    ensures MessageWrites(m, Some(p)) == [Write(m.content + "\n", Plain)]
  {
  }

  // ---------------------------------------------------------------------
  // Composing a message

  datatype Mode = PrivateMode | StreamMode

  /** The key codes the loop reacts to. */
  const KeyQuit: int := 'q' as int
  const KeyPrivate: int := 'p' as int
  const KeyStream: int := 's' as int

  /** The key bindings: `p` opens the private composer and `s` the stream composer. */
  function Keybinding(key: int): (mode: Option<Mode>)
    ensures mode == Some(PrivateMode) <==> key == KeyPrivate
    ensures mode == Some(StreamMode) <==> key == KeyStream
    ensures mode.Some? ==> key != KeyQuit
  {
    if key == KeyPrivate then Some(PrivateMode)
    else if key == KeyStream then Some(StreamMode)
    else None
  }

  /** The raw text someone typed into the composer's boxes (a private message has no subject box). */
  datatype Draft = Draft(recipient: string, subject: string, content: string)

  /** The composer's boxes, in order: recipient, the subject for a stream message, content. */
  function Boxes(mode: Mode, draft: Draft): (boxes: seq<string>)
    ensures |boxes| == if mode == PrivateMode then 2 else 3
    ensures boxes[0] == draft.recipient && boxes[|boxes| - 1] == draft.content
    ensures mode == StreamMode ==> boxes[1] == draft.subject
  {
    match mode
    case PrivateMode => [draft.recipient, draft.content]
    case StreamMode => [draft.recipient, draft.subject, draft.content]
  }

  /** The stripped text of each box, in box order. */
  function Components(mode: Mode, draft: Draft): (c: seq<string>)
    ensures |c| == if mode == PrivateMode then 2 else 3
    ensures c[0] == Strip(draft.recipient) && c[|c| - 1] == Strip(draft.content)
    ensures mode == StreamMode ==> c[1] == Strip(draft.subject)
  {
    var boxes := Boxes(mode, draft);
    seq(|boxes|, i requires 0 <= i < |boxes| => Strip(boxes[i]))
  }

  /** The send request the composer's components are passed to. */
  function ModeRequest(creds: Credentials, mode: Mode, draft: Draft): (r: Request)
    // the typed text is sent without its surrounding white space, in the send function's argument order
    ensures mode == PrivateMode ==> r == SendPrivateMessage(creds, Strip(draft.recipient), Strip(draft.content))
    ensures mode == StreamMode ==> r == SendStreamMessage(creds, Strip(draft.recipient), Strip(draft.subject), Strip(draft.content))
  {
    var c := Components(mode, draft);
    if mode == PrivateMode then SendPrivateMessage(creds, c[0], c[1])
    else SendStreamMessage(creds, c[0], c[1], c[2])
  }

  /** The components hold no surrounding white space: stripping them again changes nothing. */
  lemma ComponentsTrimmed(mode: Mode, draft: Draft)
    ensures forall i :: 0 <= i < |Components(mode, draft)| ==> Strip(Components(mode, draft)[i]) == Components(mode, draft)[i]
  {
    forall i | 0 <= i < |Components(mode, draft)|
      ensures Strip(Components(mode, draft)[i]) == Components(mode, draft)[i]
    {
      StripIdempotent(Boxes(mode, draft)[i]);
    }
  }

  /** `_message_mode`: gathers the boxes in order, strips each, and sends. */
  method MessageMode(creds: Credentials, mode: Mode, draft: Draft) returns (components: seq<string>, request: Request)
    ensures components == Components(mode, draft)
    ensures request == ModeRequest(creds, mode, draft)
  {
    var boxes := [draft.recipient];
    if mode == StreamMode {
      boxes := boxes + [draft.subject];
    }
    boxes := boxes + [draft.content];
    assert boxes == Boxes(mode, draft);
    components := seq(|boxes|, i requires 0 <= i < |boxes| => Strip(boxes[i]));
    if mode == PrivateMode {
      request := SendPrivateMessage(creds, components[0], components[1]);
    } else {
      request := SendStreamMessage(creds, components[0], components[1], components[2]);
    }
  }

  // ---------------------------------------------------------------------
  // The main loop

  /** What one read of the keyboard gives: a key code (negative for none) and, for a composer, the typed text. */
  datatype Input = Input(key: int, draft: Draft)

  /** With no key waiting, the non-blocking read gives -1. */
  const NoInput: Input := Input(-1, Draft("", "", ""))

  function InputAt(inputs: seq<Input>, read: nat): Input
  {
    if read < |inputs| then inputs[read] else NoInput
  }

  /** The state of `_main`'s loop: the screen writes, the requests sent, the previous message, the keys read, and whether `q` ended it. */
  datatype Session = Session(writes: seq<Write>, sent: seq<Request>, prev: Option<Message>, read: nat, quit: bool)

  /** What a read at an idle marker leads to: nothing, the end of the loop, or a message sent. */
  datatype Action = Ignore | Quit | Send(request: Request)

  /** No key or an unbound key is ignored, `q` quits, and a bound key runs its composer. */
  function Act(creds: Credentials, input: Input): (action: Action)
    ensures action == Quit <==> input.key == KeyQuit
    ensures action.Send? <==> Keybinding(input.key).Some?
    ensures action.Send? ==> action.request == ModeRequest(creds, Keybinding(input.key).value, input.draft)
  {
    if input.key < 0 then Ignore
    else if input.key == KeyQuit then Quit
    else match Keybinding(input.key)
      case None => Ignore
      case Some(mode) => Send(ModeRequest(creds, mode, input.draft))
  }

  /** One item of the message loop. */
  function Step(creds: Credentials, inputs: seq<Input>, s: Session, item: Item): (t: Session)
    // only a message writes, and it becomes the previous message
    ensures t.writes == s.writes + ItemWrites(item, s.prev)
    ensures t.prev == if item.Msg? then Some(item.message) else s.prev
    // only an idle marker reads a key, and only that read can send or quit
    ensures t.read == if item.Msg? then s.read else s.read + 1
    ensures item.Msg? ==> t.sent == s.sent && t.quit == s.quit
  {
    match item
    case Msg(m) => s.(writes := s.writes + MessageWrites(m, s.prev), prev := Some(m))
    case EndOfMessages => React(s, Act(creds, InputAt(inputs, s.read)))
  }

  /** The session after a read at an idle marker that led to `action`. */
  function React(s: Session, action: Action): (t: Session)
    ensures t.read == s.read + 1 && t.writes == s.writes && t.prev == s.prev
    ensures t.quit <==> s.quit || action == Quit
    ensures t.sent == if action.Send? then s.sent + [action.request] else s.sent
  {
    var next := s.(read := s.read + 1);
    match action
    case Ignore => next
    case Quit => next.(quit := true)
    case Send(request) => next.(sent := s.sent + [request])
  }

  /** The idle branch of `_main`: reads one key and acts on it, running the composer for a bound key. */
  method ReadKey(creds: Credentials, input: Input) returns (action: Action)
    ensures action == Act(creds, input)
  {
    if input.key < 0 {
      return Ignore;
    }
    if input.key == KeyQuit {
      return Quit;
    }
    var mode := Keybinding(input.key);
    if mode.None? {
      return Ignore;
    }
    var components, request := MessageMode(creds, mode.value, input.draft);
    return Send(request);
  }

  /** The items taken in order, until `q` ends the loop. */
  function Dispatch(creds: Credentials, inputs: seq<Input>, s: Session, items: seq<Item>): (r: Session)
    // a quit is final, and keys are only ever consumed
    ensures s.quit ==> r == s
    ensures s.read <= r.read
    decreases |items|
  {
    if items == [] || s.quit then s
    else Dispatch(creds, inputs, Step(creds, inputs, s, items[0]), items[1..])
  }

  /** The writes for the unread messages, each shown as if it were the first. */
  function Backlog(unread: seq<Message>): (b: seq<Write>)
    ensures b == [] <==> unread == []
    // every unread message writes at least its content line; the last one's comes last
    ensures |unread| <= |b|
    ensures unread != [] ==> b[|b| - 1] == Write(unread[|unread| - 1].content + "\n", Plain)
  {
    if unread == [] then []
    else Backlog(unread[..|unread| - 1]) + MessageWrites(unread[|unread| - 1], None)
  }

  /** The whole session: the unread messages, then the items of the message loop with no previous message. */
  function MainSession(creds: Credentials, unread: seq<Message>, items: seq<Item>, inputs: seq<Input>): (r: Session)
    // the write log starts with the unread messages, each shown in full
    ensures |Backlog(unread)| <= |r.writes| && r.writes[..|Backlog(unread)|] == Backlog(unread)
  {
    DispatchKeepsWrites(creds, inputs, Session(Backlog(unread), [], None, 0, false), items);
    Dispatch(creds, inputs, Session(Backlog(unread), [], None, 0, false), items)
  }

  lemma DispatchStep(creds: Credentials, inputs: seq<Input>, s: Session, items: seq<Item>, i: nat)
    requires i < |items| && !s.quit
    ensures Dispatch(creds, inputs, s, items[i..]) == Dispatch(creds, inputs, Step(creds, inputs, s, items[i]), items[i + 1..])
  {
    assert items[i..][1..] == items[i + 1..];
  }

  /** What one item writes to the screen: a message after `prev`, and nothing for an idle marker. */
  function ItemWrites(item: Item, prev: Option<Message>): seq<Write>
  {
    match item
    case Msg(m) => MessageWrites(m, prev)
    case EndOfMessages => []
  }

  /** One turn of `_main`'s loop over the message loop's items. */
  method TakeItem(window: Window, creds: Credentials, inputs: seq<Input>, item: Item, ghost s: Session,
                  sent: seq<Request>, prev: Option<Message>, read: nat)
    returns (sent': seq<Request>, prev': Option<Message>, read': nat, quit: bool)
    requires !s.quit && s.sent == sent && s.prev == prev && s.read == read
    modifies window
    ensures window.log == old(window.log) + ItemWrites(item, prev)
    ensures var t := Step(creds, inputs, s, item);
            t == Session(s.writes + ItemWrites(item, prev), sent', prev', read', quit)
  {
    match item
    case Msg(m) =>
      DisplayMessage(window, m, prev);
      sent', prev', read', quit := sent, Some(m), read, false;
    case EndOfMessages =>
      var action := ReadKey(creds, InputAt(inputs, read));
      sent', prev', read', quit := sent, prev, read + 1, false;
      match action
      case Ignore =>
      case Quit => quit := true;
      case Send(request) => sent' := sent + [request];
  }

  /** The first loop of `_main`: each unread message in full, in order. */
  method ShowBacklog(window: Window, unread: seq<Message>)
    modifies window
    ensures window.log == old(window.log) + Backlog(unread)
  {
    var k := 0;
    while k < |unread|
      invariant 0 <= k <= |unread|
      invariant window.log == old(window.log) + Backlog(unread[..k])
    {
      BacklogStep(unread, k);
      Assoc(old(window.log), Backlog(unread[..k]), MessageWrites(unread[k], None));
      DisplayMessage(window, unread[k], None);
      k := k + 1;
    }
    assert unread[..k] == unread;
  }

  lemma BacklogStep(unread: seq<Message>, k: nat)
    requires k < |unread|
    ensures Backlog(unread[..k + 1]) == Backlog(unread[..k]) + MessageWrites(unread[k], None)
  {
    assert unread[..k + 1][..k] == unread[..k];
  }

  /**
   * `_main`: displays the unread messages, then takes the items of the message
   * loop, displaying each message after the previous one and, at each idle
   * marker, reading one key and acting on it.
   */
  method MainLoop(window: Window, creds: Credentials, unread: seq<Message>, items: seq<Item>, inputs: seq<Input>)
    returns (sent: seq<Request>, prev: Option<Message>, quit: bool)
    modifies window
    ensures var s := MainSession(creds, unread, items, inputs);
            window.log == old(window.log) + s.writes && sent == s.sent && prev == s.prev && quit == s.quit
  {
    ShowBacklog(window, unread);
    ghost var whole := MainSession(creds, unread, items, inputs);
    ghost var s := Session(Backlog(unread), [], None, 0, false);
    sent, prev, quit := [], None, false;
    var read: nat := 0;
    var i := 0;
    while i < |items| && !quit
      invariant 0 <= i <= |items|
      invariant s == Session(s.writes, sent, prev, read, quit)
      invariant window.log == old(window.log) + s.writes
      invariant Dispatch(creds, inputs, s, items[i..]) == whole
      decreases |items| - i
    {
      DispatchStep(creds, inputs, s, items, i);
      sent, prev, read, quit := TakeItem(window, creds, inputs, items[i], s, sent, prev, read);
      Assoc(old(window.log), s.writes, ItemWrites(items[i], s.prev));
      s := Step(creds, inputs, s, items[i]);
      i := i + 1;
    }
    DispatchDone(creds, inputs, s, items[i..]);
  }

  lemma DispatchDone(creds: Credentials, inputs: seq<Input>, s: Session, rest: seq<Item>)
    requires rest == [] || s.quit
    ensures Dispatch(creds, inputs, s, rest) == s
  {
  }

  /** Once `q` is read at an idle marker, the items after it change nothing. */
  lemma QuitIgnoresRest(creds: Credentials, inputs: seq<Input>, s: Session, more: seq<Item>)
    requires !s.quit && InputAt(inputs, s.read).key == KeyQuit
    ensures Dispatch(creds, inputs, s, [EndOfMessages] + more) == s.(read := s.read + 1, quit := true)
  {
    assert ([EndOfMessages] + more)[1..] == more;
  }

  /** An idle marker with no key, or with a key that is bound to nothing, only consumes the read. */
  lemma IdleWithoutCommand(creds: Credentials, inputs: seq<Input>, s: Session)
    requires InputAt(inputs, s.read).key < 0
             || (InputAt(inputs, s.read).key != KeyQuit && Keybinding(InputAt(inputs, s.read).key).None?)
    ensures Step(creds, inputs, s, EndOfMessages) == s.(read := s.read + 1)
  {
  }

  /** At an idle marker a bound key sends exactly the request its composer builds. */
  lemma IdleCommand(creds: Credentials, inputs: seq<Input>, s: Session, mode: Mode)
    requires Keybinding(InputAt(inputs, s.read).key) == Some(mode)
    ensures var t := Step(creds, inputs, s, EndOfMessages);
            t.sent == s.sent + [ModeRequest(creds, mode, InputAt(inputs, s.read).draft)]
            && t.read == s.read + 1 && t.writes == s.writes && t.prev == s.prev && t.quit == s.quit
  {
  }

  /** The last message among `items`, or `prev` when there is none. */
  function LastMessage(items: seq<Item>, prev: Option<Message>): Option<Message>
    decreases |items|
  {
    if items == [] then prev
    else LastMessage(items[1..], if items[0].Msg? then Some(items[0].message) else prev)
  }

  /** Without a quit, the previous message ends as the last message displayed; idle markers never replace it. */
  lemma {:induction false} PrevIsLastMessage(creds: Credentials, inputs: seq<Input>, s: Session, items: seq<Item>)
    requires !s.quit
    ensures var r := Dispatch(creds, inputs, s, items);
            !r.quit ==> r.prev == LastMessage(items, s.prev)
    decreases |items|
  {
    if items != [] {
      var t := Step(creds, inputs, s, items[0]);
      assert t.prev == if items[0].Msg? then Some(items[0].message) else s.prev;
      if !t.quit {
        PrevIsLastMessage(creds, inputs, t, items[1..]);
      } else {
        assert Dispatch(creds, inputs, s, items) == t;
      }
    }
  }

  /** The write log only grows: what was written before stays, in front. */
  lemma {:induction false} DispatchKeepsWrites(creds: Credentials, inputs: seq<Input>, s: Session, items: seq<Item>)
    ensures var r := Dispatch(creds, inputs, s, items);
            |s.writes| <= |r.writes| && r.writes[..|s.writes|] == s.writes
    ensures var r := Dispatch(creds, inputs, s, items);
            |s.sent| <= |r.sent| && r.sent[..|s.sent|] == s.sent
    decreases |items|
  {
    if items != [] && !s.quit {
      var t := Step(creds, inputs, s, items[0]);
      DispatchKeepsWrites(creds, inputs, t, items[1..]);
      var r := Dispatch(creds, inputs, s, items);
      assert r.writes[..|t.writes|][..|s.writes|] == r.writes[..|s.writes|];
      assert r.sent[..|t.sent|][..|s.sent|] == r.sent[..|s.sent|];
    }
  }
}
