/** The browser client of the collaborative editor and chat: how it reacts to
    frames arriving on its WebSocket, what it sends when the user types in the
    editor, posts in the chat or saves the document, and how it names a saved
    document. */
module ClientApp {
  import opened Common

  /** The `type` tags the client sends and recognises. */
  const MessageKind := "message"
  const EditorKind := "editor"
  const LogKind := "log"
  const EditingKind := "editing"

  /** A frame `{ type: kind, payload: payload }` as the client serialises it. */
  datatype Frame = Frame(kind: string, payload: string)

  /** What `JSON.parse(event.data)` and the reads of `data.type` and
      `data.payload` produce. `Undecodable` stands for every outcome that
      throws: text that is not JSON, or JSON `null`, whose `.type` cannot be
      read. A decoded value whose `type` is absent or not a string has tag
      `None`. */
  datatype Decoded = Undecodable | Decoded(tag: Option<string>, payload: string)

  /** One WebSocket `message` event: the raw text and what decoding it gave. */
  datatype Inbound = Inbound(raw: string, decoded: Decoded)

  /** The four pieces of client state that inbound frames update. */
  datatype View = View(messages: seq<string>, editor: string, changeLog: seq<string>, editingUser: Option<string>)

  /** True when `e` decoded to an object whose `type` is exactly `kind`. */
  predicate HasKind(e: Inbound, kind: string)
  {
    e.decoded.Decoded? && e.decoded.tag == Some(kind)
  }

  /** How many of the four view cells differ between `v` and `w`. */
  function ChangedCells(v: View, w: View): nat
  {
    (if v.messages != w.messages then 1 else 0) + (if v.editor != w.editor then 1 else 0)
    + (if v.changeLog != w.changeLog then 1 else 0) + (if v.editingUser != w.editingUser then 1 else 0)
  }

  /** The `ws.onmessage` handler as a reducer over the client's view. The four
      tag tests exclude each other, so one frame changes at most one cell; the
      chat and the change log only grow, by at most one entry; the editing
      user, once set, is never cleared. */
  function Receive(v: View, e: Inbound): (r: View)
    ensures ChangedCells(v, r) <= 1
    ensures v.messages <= r.messages && |r.messages| <= |v.messages| + 1
    ensures v.changeLog <= r.changeLog && |r.changeLog| <= |v.changeLog| + 1
    ensures v.editingUser.Some? ==> r.editingUser.Some?
    ensures e.decoded.Undecodable? ==> r.messages == v.messages + [e.raw]
  {
    match e.decoded
    case Undecodable => v.(messages := v.messages + [e.raw])
    case Decoded(tag, payload) =>
      if tag == Some(MessageKind) then v.(messages := v.messages + [payload])
      else if tag == Some(EditorKind) then v.(editor := payload)
      else if tag == Some(LogKind) then v.(changeLog := v.changeLog + [payload])
      else if tag == Some(EditingKind) then v.(editingUser := Some(payload))
      else v
  }

  /** A "message" frame appends its payload to the chat and changes nothing else. */
  lemma ReceiveChat(v: View, raw: string, payload: string)
    ensures Receive(v, Inbound(raw, Decoded(Some(MessageKind), payload)))
         == View(v.messages + [payload], v.editor, v.changeLog, v.editingUser)
  {
  }

  /** An "editor" frame replaces the editor content and changes nothing else. */
  lemma ReceiveEditor(v: View, raw: string, payload: string)
    ensures Receive(v, Inbound(raw, Decoded(Some(EditorKind), payload)))
         == View(v.messages, payload, v.changeLog, v.editingUser)
  {
  }

  /** A "log" frame appends to the change log and changes nothing else. */
  lemma ReceiveLog(v: View, raw: string, payload: string)
    ensures Receive(v, Inbound(raw, Decoded(Some(LogKind), payload)))
         == View(v.messages, v.editor, v.changeLog + [payload], v.editingUser)
  {
  }

  /** An "editing" frame sets the editing user and changes nothing else. */
  lemma ReceiveEditing(v: View, raw: string, payload: string)
    ensures Receive(v, Inbound(raw, Decoded(Some(EditingKind), payload)))
         == View(v.messages, v.editor, v.changeLog, Some(payload))
  {
  }

  /** A decoded frame with any other tag, or with no tag, changes nothing. */
  lemma ReceiveOther(v: View, e: Inbound)
    requires e.decoded.Decoded?
    requires !HasKind(e, MessageKind) && !HasKind(e, EditorKind)
    requires !HasKind(e, LogKind) && !HasKind(e, EditingKind)
    ensures Receive(v, e) == v
  {
  }

  /** A frame that cannot be decoded is shown raw at the end of the chat. */
  lemma ReceiveUndecodable(v: View, raw: string)
    ensures Receive(v, Inbound(raw, Undecodable))
         == View(v.messages + [raw], v.editor, v.changeLog, v.editingUser)
  {
  }

  /** The view after a whole stream of inbound events, in arrival order. */
  function ReceiveAll(v: View, es: seq<Inbound>): View
    decreases |es|
  {
    if es == [] then v else ReceiveAll(Receive(v, es[0]), es[1..])
  }

  /** The chat lines a stream contributes: the payload of every "message"
      frame and the raw text of every undecodable one, in order. */
  function ChatEntries(es: seq<Inbound>): seq<string>
  {
    if es == [] then []
    else
      var e := es[0];
      (if e.decoded.Undecodable? then [e.raw]
       else if HasKind(e, MessageKind) then [e.decoded.payload]
       else []) + ChatEntries(es[1..])
  }

  /** The payloads of the "log" frames of a stream, in order. */
  function LogEntries(es: seq<Inbound>): seq<string>
  {
    if es == [] then []
    else (if HasKind(es[0], LogKind) then [es[0].decoded.payload] else []) + LogEntries(es[1..])
  }

  /** The payload of the last frame of the given kind in a stream, if any. */
  function LastPayload(es: seq<Inbound>, kind: string): Option<string>
  {
    if es == [] then None
    else if HasKind(es[|es| - 1], kind) then Some(es[|es| - 1].decoded.payload)
    else LastPayload(es[..|es| - 1], kind)
  }

  lemma {:induction false} ReceiveAllSnoc(v: View, es: seq<Inbound>, e: Inbound)
    ensures ReceiveAll(v, es + [e]) == Receive(ReceiveAll(v, es), e)
    decreases |es|
  {
    if es == [] {
      assert [e][1..] == [];
    } else {
      assert (es + [e])[1..] == es[1..] + [e];
      ReceiveAllSnoc(Receive(v, es[0]), es[1..], e);
    }
  }

  /** The chat only grows: after a stream it is the old chat followed by the
      stream's chat entries. */
  lemma {:induction false} ReceiveAllChat(v: View, es: seq<Inbound>)
    ensures ReceiveAll(v, es).messages == v.messages + ChatEntries(es)
    decreases |es|
  {
    if es != [] {
      ReceiveAllChat(Receive(v, es[0]), es[1..]);
    }
  }

  /** The change log after a stream is the old log followed by the payloads
      of the stream's "log" frames. */
  lemma {:induction false} ReceiveAllLog(v: View, es: seq<Inbound>)
    ensures ReceiveAll(v, es).changeLog == v.changeLog + LogEntries(es)
    decreases |es|
  {
    if es != [] {
      ReceiveAllLog(Receive(v, es[0]), es[1..]);
    }
  }

  /** Last write wins: after a stream the editor holds the payload of its last
      "editor" frame, or the old content when there is none. */
  lemma {:induction false} ReceiveAllEditor(v: View, es: seq<Inbound>)
    ensures ReceiveAll(v, es).editor == LastPayload(es, EditorKind).GetOr(v.editor)
    decreases |es|
  {
    if es != [] {
      var init, last := es[..|es| - 1], es[|es| - 1];
      assert es == init + [last];
      ReceiveAllSnoc(v, init, last);
      ReceiveAllEditor(v, init);
    }
  }

  /** After a stream the editing user is the payload of its last "editing"
      frame, or the old value when there is none. */
  lemma {:induction false} ReceiveAllEditing(v: View, es: seq<Inbound>)
    ensures ReceiveAll(v, es).editingUser
         == (if LastPayload(es, EditingKind).Some? then LastPayload(es, EditingKind) else v.editingUser)
    decreases |es|
  {
    if es != [] {
      var init, last := es[..|es| - 1], es[|es| - 1];
      assert es == init + [last];
      ReceiveAllSnoc(v, init, last);
      ReceiveAllEditing(v, init);
    }
  }

  /** The chat line `[hora] nombre: input` that `sendMessage` posts. */
  function ChatLine(hora: string, nombre: string, input: string): (line: string)
    ensures |line| == |hora| + |nombre| + |input| + 5
    ensures line[0] == '[' && line[1..|hora| + 1] == hora && line[|hora| + 1..|hora| + 3] == "] "
    ensures line[|hora| + 3..|hora| + 3 + |nombre|] == nombre
    ensures line[|line| - |input| - 2..] == ": " + input
  {
    "[" + hora + "] " + nombre + ": " + input
  }

  /** For one time and one sender, different inputs give different chat lines. */
  lemma ChatLineInjective(hora: string, nombre: string, a: string, b: string)
    requires ChatLine(hora, nombre, a) == ChatLine(hora, nombre, b)
    ensures a == b
  {
    var n := |hora| + |nombre| + 5;
    assert a == ChatLine(hora, nombre, a)[n..];
    assert b == ChatLine(hora, nombre, b)[n..];
  }

  /** The fixed words that follow the user's name in a change-log entry. */
  const LogSuffix := " realizó cambios en el documento"

  /** The payload of the "log" frame a finished edit burst sends: the user's
      name followed by LogSuffix. */
  function LogText(nombre: string): (text: string)
    ensures |text| == |nombre| + |LogSuffix|
    ensures text[..|nombre|] == nombre && text[|nombre|..] == LogSuffix
  {
    nombre + LogSuffix
  }

  const TxtSuffix := ".txt"

  /** The save name's normalisation: a name that already ends with ".txt" is
      kept as it is, any other name gets the whole suffix ".txt" appended. */
  function NormalizeName(name: string): (r: string)
    ensures EndsWith(r, TxtSuffix)
    ensures name <= r && |r| <= |name| + |TxtSuffix|
    ensures r == name <==> EndsWith(name, TxtSuffix)
    ensures !EndsWith(name, TxtSuffix) ==> |r| == |name| + |TxtSuffix|
  {
    if EndsWith(name, TxtSuffix) then name else name + TxtSuffix
  }

  lemma NormalizeNameIdempotent(name: string)
    ensures NormalizeName(NormalizeName(name)) == NormalizeName(name)
  {
  }

  /** The name `guardarDocumento` saves under: the current file name when it
      is non-empty (no prompt is shown), otherwise the prompt's answer (a
      cancelled prompt counts as "") with ".txt" appended when missing. */
  function SaveName(filename: string, answer: Option<string>): (name: string)
    ensures filename != "" ==> name == filename
    ensures filename == "" ==> EndsWith(name, TxtSuffix) && answer.GetOr("") <= name
    ensures filename == "" ==> name == NormalizeName(answer.GetOr(""))
  {
    if filename != "" then filename else NormalizeName(answer.GetOr(""))
  }

  /** An empty or cancelled prompt saves as ".txt". */
  lemma SaveNameEmptyAnswer(answer: Option<string>)
    requires Falsy(answer)
    ensures SaveName("", answer) == ".txt"
  {
  }

  /** The number of frames of the given kind. */
  function Count(frames: seq<Frame>, kind: string): nat
  {
    if frames == [] then 0 else (if frames[0].kind == kind then 1 else 0) + Count(frames[1..], kind)
  }

  lemma {:induction false} CountAppend(a: seq<Frame>, b: seq<Frame>, kind: string)
    ensures Count(a + b, kind) == Count(a, kind) + Count(b, kind)
  {
    if a == [] {
      assert a + b == b;
    } else {
      assert (a + b)[1..] == a[1..] + b;
      CountAppend(a[1..], b, kind);
    }
  }

  /** Sending one more frame adds one to the count of its own kind only. */
  lemma CountSnoc(a: seq<Frame>, f: Frame, kind: string)
    ensures Count(a + [f], kind) == Count(a, kind) + (if f.kind == kind then 1 else 0)
  {
    CountAppend(a, [f], kind);
    assert [f][1..] == [];
  }

  /** The body of a `POST /api/save_doc` request. */
  datatype SaveRequest = SaveRequest(filename: string, content: string)

  /** A snapshot of every field of a Client. */
  datatype State = State(
    messages: seq<string>, input: string, user: Option<User>,
    editorContent: string, filename: string, changeLog: seq<string>,
    editingUser: Option<string>, socketOpen: bool, pendingLog: Option<string>,
    sent: seq<Frame>, posted: seq<Frame>, saves: seq<SaveRequest>)

  /** The App component's state cells and the requests it has issued. */
  class Client {
    var messages: seq<string>
    var input: string
    var user: Option<User>
    var editorContent: string
    var filename: string
    var changeLog: seq<string>
    var editingUser: Option<string>
    /** `socket && socket.readyState === WebSocket.OPEN` */
    var socketOpen: bool
    /** `logTimeoutRef`: the payload of the outstanding "log" timer, if any. */
    var pendingLog: Option<string>
    /** Every `socket.send`, in order. */
    var sent: seq<Frame>
    /** Every frame posted to `/api/message`, in order. */
    var posted: seq<Frame>
    /** Every request to `/api/save_doc`, in order. */
    var saves: seq<SaveRequest>

    function Snapshot(): State
      reads this
    {
      State(messages, input, user, editorContent, filename, changeLog,
            editingUser, socketOpen, pendingLog, sent, posted, saves)
    }

    function CurrentView(): View
      reads this
    {
      View(messages, editorContent, changeLog, editingUser)
    }

    /** A socket exists only once a user has logged in; the outstanding log
        timer carries the logged-in user's name; and the debounce never lets
        more "log" frames out than "editing" frames: every sent or pending
        log is paid for by a distinct editor change. */
    ghost predicate Valid()
      reads this
    {
      && (socketOpen ==> user.Some?)
      && (pendingLog.Some? ==> user.Some? && pendingLog.value == LogText(user.value.nombre))
      && Count(sent, LogKind) + (if pendingLog.Some? then 1 else 0) <= Count(sent, EditingKind)
    }

    constructor ()
      ensures Valid()
      ensures Snapshot() == State([], "", None, "", "", [], None, false, None, [], [], [])
    {
      messages, input, user := [], "", None;
      editorContent, filename, changeLog, editingUser := "", "", [], None;
      socketOpen, pendingLog := false, None;
      sent, posted, saves := [], [], [];
    }

    /** `setUser`, called by the login form, which is shown only while no
        user is logged in. */
    method SignIn(u: User)
      requires Valid() && user.None?
      modifies this
      ensures Valid()
      ensures Snapshot() == old(Snapshot()).(user := Some(u))
    {
      user := Some(u);
    }

    /** The socket, created once a user is logged in, reaches or leaves the
        OPEN state. A real WebSocket never reopens once closed, and this
        client creates no second socket after login; the model allows the
        flag to return to OPEN, a superset of the real traces, so every
        invariant proved here also holds for them. */
    method SetSocketOpen(open: bool)
      requires Valid()
      requires open ==> user.Some?
      modifies this
      ensures Valid()
      ensures Snapshot() == old(Snapshot()).(socketOpen := open)
    {
      socketOpen := open;
    }

    /** `setInput`, the chat box's change handler. */
    method SetInput(text: string)
      requires Valid()
      modifies this
      ensures Valid()
      ensures Snapshot() == old(Snapshot()).(input := text)
    {
      input := text;
    }

    /** `ws.onmessage`: the view moves by Receive; nothing is sent. */
    method OnMessage(e: Inbound)
      requires Valid()
      modifies this
      ensures Valid()
      ensures CurrentView() == Receive(old(CurrentView()), e)
      ensures Snapshot() == old(Snapshot()).(messages := messages, editorContent := editorContent,
                                       changeLog := changeLog, editingUser := editingUser)
    {
      match e.decoded
      case Undecodable =>
        messages := messages + [e.raw];
      case Decoded(tag, payload) =>
        if tag == Some(MessageKind) { messages := messages + [payload]; }
        if tag == Some(EditorKind) { editorContent := payload; }
        if tag == Some(LogKind) { changeLog := changeLog + [payload]; }
        if tag == Some(EditingKind) { editingUser := Some(payload); }
    }

    /** `handleEditorChange`: the local content always takes the new value.
        With an open socket and a logged-in user, exactly two frames go out,
        "editor" with the text and then "editing" with the user's name, and
        the log timer is restarted: the previous one, if any, is cancelled,
        so at most one is ever outstanding. Otherwise nothing is sent and the
        timer is left alone. */
    method EditorChange(value: string)
      requires Valid()
      modifies this
      ensures Valid()
      ensures old(socketOpen) && old(user).Some? ==>
        Snapshot() == old(Snapshot()).(editorContent := value,
          sent := old(sent) + [Frame(EditorKind, value), Frame(EditingKind, old(user).value.nombre)],
          pendingLog := Some(LogText(old(user).value.nombre)))
      ensures !(old(socketOpen) && old(user).Some?) ==>
        Snapshot() == old(Snapshot()).(editorContent := value)
    {
      editorContent := value;
      if socketOpen && user.Some? {
        var editor, editing := Frame(EditorKind, value), Frame(EditingKind, user.value.nombre);
        CountSnoc(sent, editor, LogKind);
        CountSnoc(sent, editor, EditingKind);
        CountSnoc(sent + [editor], editing, LogKind);
        CountSnoc(sent + [editor], editing, EditingKind);
        assert sent + [editor, editing] == sent + [editor] + [editing];
        sent := sent + [editor, editing];
        pendingLog := Some(LogText(user.value.nombre));
      }
    }

    /** The outstanding log timer fires: exactly one "log" frame is sent and
        no timer is left outstanding. */
    method FireLogTimer()
      requires Valid() && pendingLog.Some?
      modifies this
      ensures Valid()
      ensures Snapshot() == old(Snapshot()).(sent := old(sent) + [Frame(LogKind, LogText(old(user).value.nombre))],
                                       pendingLog := None)
    {
      CountSnoc(sent, Frame(LogKind, pendingLog.value), LogKind);
      CountSnoc(sent, Frame(LogKind, pendingLog.value), EditingKind);
      sent := sent + [Frame(LogKind, pendingLog.value)];
      pendingLog := None;
    }

    /** `sendMessage`: nothing happens when the input is empty or no user is
        logged in. Otherwise a "message" frame carrying `[hora] nombre: input`
        is posted to `/api/message`, and the input is cleared once the post
        completes (`fetchOk`); a failed post leaves the input as it was. */
    method SendMessage(hora: string, fetchOk: bool)
      requires Valid()
      modifies this
      ensures Valid()
      ensures old(input) == "" || old(user).None? ==> Snapshot() == old(Snapshot())
      ensures old(input) != "" && old(user).Some? ==>
        Snapshot() == old(Snapshot()).(
          posted := old(posted) + [Frame(MessageKind, ChatLine(hora, old(user).value.nombre, old(input)))],
          input := if fetchOk then "" else old(input))
    {
      if input == "" || user.None? {
        return;
      }
      var line := ChatLine(hora, user.value.nombre, input);
      posted := posted + [Frame(MessageKind, line)];
      if fetchOk {
        input := "";
      }
    }

    /** `crearNuevoDocumento`: once confirmed, the content and file name are
        cleared and, with an open socket, an empty "editor" frame is sent. */
    method NewDocument(confirmed: bool)
      requires Valid()
      modifies this
      ensures Valid()
      ensures !confirmed ==> Snapshot() == old(Snapshot())
      ensures confirmed ==>
        Snapshot() == old(Snapshot()).(editorContent := "", filename := "",
          sent := if old(socketOpen) then old(sent) + [Frame(EditorKind, "")] else old(sent))
    {
      if confirmed {
        editorContent := "";
        filename := "";
        if socketOpen {
          CountSnoc(sent, Frame(EditorKind, ""), LogKind);
          CountSnoc(sent, Frame(EditorKind, ""), EditingKind);
          sent := sent + [Frame(EditorKind, "")];
        }
      }
    }

    /** `guardarDocumento`: saves the content under SaveName; the file name is
        set to that name only when it was empty. `answer` is what the name
        prompt returns, consulted only when the file name is empty. */
    method SaveDocument(answer: Option<string>) returns (name: string)
      requires Valid()
      modifies this
      ensures Valid()
      ensures name == SaveName(old(filename), answer)
      ensures Snapshot() == old(Snapshot()).(filename := name,
                                       saves := old(saves) + [SaveRequest(name, old(editorContent))])
    {
      name := SaveName(filename, answer);
      if filename == "" {
        filename := name;
      }
      saves := saves + [SaveRequest(name, editorContent)];
    }

    /** One tick of the 10-second autosave interval, which is installed only
        while a user is logged in: with a file name and
        non-empty content the document is saved under its current name,
        without a prompt; otherwise nothing happens. */
    method AutosaveTick()
      requires Valid() && user.Some?
      modifies this
      ensures Valid()
      ensures old(filename) != "" && old(editorContent) != "" ==>
        Snapshot() == old(Snapshot()).(saves := old(saves) + [SaveRequest(old(filename), old(editorContent))])
      ensures !(old(filename) != "" && old(editorContent) != "") ==> Snapshot() == old(Snapshot())
    {
      if filename != "" && editorContent != "" {
        var _ := SaveDocument(None);
      }
    }

    /** `abrirDocumento`: `fetched` is the `content` of the response for
        `docName`, or None when the request or the decoding of its JSON body
        fails, in which case nothing changes and nothing is sent. Otherwise
        the content replaces the editor content, the file name becomes
        `docName`, and with an open socket the content is sent as an "editor"
        frame. */
    method OpenDocument(docName: string, fetched: Option<string>)
      requires Valid()
      modifies this
      ensures Valid()
      ensures fetched.None? ==> Snapshot() == old(Snapshot())
      ensures fetched.Some? ==>
        Snapshot() == old(Snapshot()).(editorContent := fetched.value, filename := docName,
          sent := if old(socketOpen) then old(sent) + [Frame(EditorKind, fetched.value)] else old(sent))
    {
      if fetched.None? {
        return;
      }
      var content := fetched.value;
      editorContent := content;
      filename := docName;
      if socketOpen {
        CountSnoc(sent, Frame(EditorKind, content), LogKind);
        CountSnoc(sent, Frame(EditorKind, content), EditingKind);
        sent := sent + [Frame(EditorKind, content)];
      }
    }
  }

  /** A burst of edits while connected sends one "editor" and one "editing"
      frame per edit, and, once the timer fires, a single "log" frame. */
  method EditBurstSendsOneLog(u: User) returns (sent: seq<Frame>, content: string)
    ensures sent == [Frame(EditorKind, "a"), Frame(EditingKind, u.nombre),
                     Frame(EditorKind, "ab"), Frame(EditingKind, u.nombre),
                     Frame(EditorKind, "abc"), Frame(EditingKind, u.nombre),
                     Frame(LogKind, LogText(u.nombre))]
    ensures content == "abc"
  {
    var c := new Client();
    c.SignIn(u);
    c.SetSocketOpen(true);
    c.EditorChange("a");
    c.EditorChange("ab");
    c.EditorChange("abc");
    c.FireLogTimer();
    sent, content := c.sent, c.editorContent;
  }
}
