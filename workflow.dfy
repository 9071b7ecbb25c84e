/** The session state that `main` and `display_chat_interface` (app.py) keep
    in Streamlit's session state, and the steps one pass of the script takes
    on it. A rerun (`st.rerun()`) ends the pass. */
module Workflow {
  import opened Wrappers
  import opened Ocr
  import opened Completion
  import opened Selector

  /** The three pages of the sidebar radio. */
  datatype Page = ExtractText | ChatWithData | DirectChat {
    /** The string the source stores in `st.session_state.page`. */
    function Name(): string
    {
      match this
      case ExtractText => "Extract Text"
      case ChatWithData => "Chat with Prescription Data"
      case DirectChat => "Direct Chat"
    }
  }

  /** Comparing pages by their stored strings is comparing the pages. */
  lemma NameInjective(p: Page, q: Page)
    ensures p.Name() == q.Name() <==> p == q
  {
    if p != q {
      assert p.Name()[0] != q.Name()[0];
    }
  }

  /** Lines 185-187: the pass asks for a database collection on the two
      pages listed there and on no other. */
  function AcquiresCollection(page: Page): (r: bool)
    ensures r <==> page.Name() in ["Extract Text", "Chat with Prescription Data"]
  {
    page != DirectChat
  }

  datatype Role = User | Assistant

  datatype Message = Message(role: Role, content: string)

  /** Every user message is directly followed by its assistant reply. */
  predicate Paired(h: seq<Message>)
    ensures Paired(h) ==>
      forall k :: 0 <= k < |h| / 2 ==> h[2 * k].role == User && h[2 * k + 1].role == Assistant
  {
    |h| % 2 == 0 && forall k :: 0 <= k < |h| ==> h[k].role == (if k % 2 == 0 then User else Assistant)
  }

  /** The history after one completed chat turn. */
  function Turn(h: seq<Message>, query: string, reply: string): (r: seq<Message>)
    ensures |r| == |h| + 2 && r[..|h|] == h
    ensures r[|h|] == Message(User, query) && r[|h| + 1] == Message(Assistant, reply)
  {
    h + [Message(User, query), Message(Assistant, reply)]
  }

  lemma TurnKeepsPaired(h: seq<Message>, query: string, reply: string)
    requires Paired(h)
    ensures Paired(Turn(h, query, reply))
  {
    var t := Turn(h, query, reply);
    forall k | 0 <= k < |t| ensures t[k].role == (if k % 2 == 0 then User else Assistant) {
      if k < |h| { assert t[k] == h[k]; }
    }
  }

  /** One submitted query and the reply it got. */
  datatype Exchange = Exchange(query: string, reply: string)

  /** The history after a sequence of completed turns. */
  function Replay(h: seq<Message>, turns: seq<Exchange>): (r: seq<Message>)
    ensures |r| == |h| + 2 * |turns| && r[..|h|] == h
    decreases turns
  {
    if turns == [] then h
    else
      var h' := Turn(h, turns[0].query, turns[0].reply);
      var r := Replay(h', turns[1..]);
      assert r[..|h|] == r[..|h'|][..|h|];
      r
  }

  /** After N turns the N exchanges follow the earlier history in call
      order, question before reply, and the pairing is kept. */
  lemma {:induction false} ReplayInOrder(h: seq<Message>, turns: seq<Exchange>)
    ensures forall k :: 0 <= k < |turns| ==>
      Replay(h, turns)[|h| + 2 * k] == Message(User, turns[k].query) &&
      Replay(h, turns)[|h| + 2 * k + 1] == Message(Assistant, turns[k].reply)
    ensures Paired(h) ==> Paired(Replay(h, turns))
    decreases turns
  {
    if turns != [] {
      var h' := Turn(h, turns[0].query, turns[0].reply);
      var r := Replay(h, turns);
      ReplayInOrder(h', turns[1..]);
      assert r[|h|] == r[..|h'|][|h|] && r[|h| + 1] == r[..|h'|][|h| + 1];
      forall k | 1 <= k < |turns|
        ensures r[|h| + 2 * k] == Message(User, turns[k].query)
        ensures r[|h| + 2 * k + 1] == Message(Assistant, turns[k].reply)
      {
        assert turns[1..][k - 1] == turns[k];
        assert |h| + 2 * k == |h'| + 2 * (k - 1);
      }
      if Paired(h) { TurnKeepsPaired(h, turns[0].query, turns[0].reply); }
    }
  }

  /** Lines 140-153: the history after the chat input was read. */
  function AfterQuery(h: seq<Message>, query: Option<string>, data: Option<string>,
                      apiKey: Option<string>, service: Request -> Reply): (r: seq<Message>)
    ensures |r| == |h| + (if Truthy(query) then 2 else 0) && r[..|h|] == h
    ensures Truthy(query) ==>
      r[|h|] == Message(User, query.value) &&
      r[|h| + 1] == Message(Assistant, Query(apiKey, query.value, data, service))
    ensures Paired(h) ==> Paired(r)
  {
    if !Truthy(query) then h
    else if Paired(h) then
      TurnKeepsPaired(h, query.value, Query(apiKey, query.value, data, service));
      Turn(h, query.value, Query(apiKey, query.value, data, service))
    else Turn(h, query.value, Query(apiKey, query.value, data, service))
  }

  /** Lines 160-161: the history after the clear button was or was not
      pressed (the button is only shown for a non-empty history). */
  function AfterClear(h: seq<Message>, pressed: bool): (r: seq<Message>)
    ensures pressed ==> r == []
    ensures !pressed ==> r == h
    ensures Paired(h) ==> Paired(r)
  {
    if pressed then [] else h
  }

  /** Whether a pass ended with a chat panel, and with what prescription data. */
  datatype Panel = NoPanel | PanelWith(data: Option<string>)

  class Session {
    var page: Page
    var history: seq<Message>
    var current: Option<string>

    /** The transcript invariant: every question has its reply, so a
        non-empty history always ends with an assistant message. */
    ghost predicate Valid()
      reads this
      ensures Valid() ==> history == [] || history[|history| - 1].role == Assistant
    {
      Paired(history)
    }

    /** A new session: the first page, an empty history, no extraction. */
    constructor ()
      ensures Valid()
      ensures page == ExtractText && history == [] && current == None
    {
      page := ExtractText;
      history := [];
      current := None;
    }

    /** Lines 176-179: the page is forced to the radio's value; a change
        ends the pass with a rerun. */
    method Reconcile(selected: Page) returns (rerun: bool)
      requires Valid()
      modifies this
      ensures Valid()
      ensures page == selected && rerun == (old(page) != selected)
      ensures history == old(history) && current == old(current)
    {
      rerun := false;
      if selected != page {
        page := selected;
        rerun := true;
      }
    }

    /** Lines 201-253 without the store buttons: the text is extracted, and
        when it is truthy and "Chat with this Prescription" is pressed, it
        becomes the current prescription and the page switches to the chat
        page with a rerun. Both variants of that button (with and without a
        collection) do the same. */
    method Extract(ocr: OcrOutput, chatPressed: bool) returns (extracted: Option<string>, rerun: bool)
      requires Valid()
      modifies this
      ensures Valid()
      ensures extracted == Normalise(ocr)
      ensures rerun == (Truthy(extracted) && chatPressed)
      ensures rerun ==> current == extracted && page == ChatWithData
      ensures !rerun ==> current == old(current) && page == old(page)
      ensures history == old(history)
    {
      extracted := Normalise(ocr);
      rerun := false;
      if extracted.Some? && extracted.value != "" {
        if chatPressed {
          current := extracted;
          page := ChatWithData;
          rerun := true;
        }
      }
    }

    /** Lines 261-306: resolves the chat page's prescription data; `None` is
        the early return without a chat panel. */
    method ChatPageData(store: StoreView, choice: nat) returns (data: Option<string>)
      requires HasRecords(store) ==> choice < |Options(store.records, Truthy(current))|
      ensures data == Resolve(store, current, choice)
    {
      var hasCurrent := current.Some? && current.value != "";
      if store.Reachable? {
        var prescriptions := store.records;
        if |prescriptions| > 0 {
          var options := BuildOptions(prescriptions, hasCurrent);
          var picked := SelectData(options[choice], prescriptions, CurrentText(current));
          SelectOption(prescriptions, hasCurrent, CurrentText(current), choice);
          data := Some(picked.value);
        } else if hasCurrent {
          data := current;
        } else {
          data := None;
        }
      } else if hasCurrent {
        data := current;
      } else {
        data := None;
      }
    }

    /** Lines 140-153: a truthy query appends the user message, asks the
        completion service and appends its reply (or error text); nothing
        escapes, so the pair is always completed. */
    method SubmitQuery(query: Option<string>, data: Option<string>, apiKey: Option<string>,
                       service: Request -> Reply) returns (reply: Option<string>)
      requires Valid()
      modifies this
      ensures Valid()
      ensures history == AfterQuery(old(history), query, data, apiKey, service)
      ensures reply == if Truthy(query) then Some(Query(apiKey, query.value, data, service)) else None
      ensures page == old(page) && current == old(current)
    {
      reply := None;
      if query.Some? && query.value != "" {
        TurnKeepsPaired(history, query.value, Query(apiKey, query.value, data, service));
        history := history + [Message(User, query.value)];
        var response := Query(apiKey, query.value, data, service);
        history := history + [Message(Assistant, response)];
        reply := Some(response);
      }
    }

    /** Lines 160-162: a press of "Clear Chat History" (offered only for a
        non-empty history) empties it and reruns. */
    method ClearHistory(pressed: bool) returns (rerun: bool)
      requires Valid()
      modifies this
      ensures Valid()
      ensures history == AfterClear(old(history), pressed)
      ensures rerun == (pressed && old(history) != [])
      ensures page == old(page) && current == old(current)
    {
      rerun := false;
      if history != [] && pressed {
        history := [];
        rerun := true;
      }
    }

    /** `display_chat_interface`: read the chat input, then the clear button. */
    method ChatPanel(data: Option<string>, query: Option<string>, clearPressed: bool,
                     apiKey: Option<string>, service: Request -> Reply) returns (rerun: bool)
      requires Valid()
      modifies this
      ensures Valid()
      ensures history == AfterClear(AfterQuery(old(history), query, data, apiKey, service), clearPressed)
      ensures rerun == (clearPressed && AfterQuery(old(history), query, data, apiKey, service) != [])
      ensures page == old(page) && current == old(current)
    {
      var _ := SubmitQuery(query, data, apiKey, service);
      rerun := ClearHistory(clearPressed);
    }

    /** One pass of `main`. `radio` is the sidebar's value, `db` what
        `get_db_connection` returns if it is called, `ocr` the OCR outcome
        when an image is uploaded and "Extract Text" pressed (else `None`),
        `choice` the position the selector returns, `query` the chat input. */
    method Pass(radio: Page, db: StoreView, ocr: Option<OcrOutput>, chatPressed: bool, choice: nat,
                query: Option<string>, clearPressed: bool, apiKey: Option<string>,
                service: Request -> Reply) returns (acquired: bool, panel: Panel, rerun: bool)
      requires Valid()
      requires page == radio && radio == ChatWithData && HasRecords(db) ==>
        choice < |Options(db.records, Truthy(current))|
      modifies this
      ensures Valid()
      ensures page == radio || (old(page) == ExtractText == radio && page == ChatWithData)
      ensures old(page) != radio ==>
        rerun && !acquired && panel == NoPanel && history == old(history) && current == old(current)
      ensures old(page) == radio ==> acquired == AcquiresCollection(radio)
      ensures old(page) == radio == ExtractText ==>
        panel == NoPanel && history == old(history) &&
        rerun == (ocr.Some? && Truthy(Normalise(ocr.value)) && chatPressed) &&
        page == (if rerun then ChatWithData else ExtractText) &&
        current == (if rerun then Normalise(ocr.value) else old(current))
      ensures old(page) == radio == ChatWithData ==>
        current == old(current) &&
        panel == (if Resolve(db, old(current), choice).None? then NoPanel
                  else PanelWith(Resolve(db, old(current), choice))) &&
        history == (if panel == NoPanel then old(history)
                    else AfterClear(AfterQuery(old(history), query, panel.data, apiKey, service), clearPressed)) &&
        rerun == (panel != NoPanel && clearPressed &&
                  AfterQuery(old(history), query, panel.data, apiKey, service) != [])
      ensures old(page) == radio == DirectChat ==>
        current == old(current) && panel == PanelWith(None) &&
        history == AfterClear(AfterQuery(old(history), query, None, apiKey, service), clearPressed) &&
        rerun == (clearPressed && AfterQuery(old(history), query, None, apiKey, service) != [])
    {
      acquired, panel := false, NoPanel;
      rerun := Reconcile(radio);
      if rerun {
        return;
      }
      var collection := Unreachable;
      if AcquiresCollection(page) {
        acquired := true;
        collection := db;
      }
      if page == ExtractText {
        if ocr.Some? {
          var _, r := Extract(ocr.value, chatPressed);
          rerun := r;
        }
      } else if page == ChatWithData {
        var data := ChatPageData(collection, choice);
        if data.Some? {
          panel := PanelWith(data);
          rerun := ChatPanel(data, query, clearPressed, apiKey, service);
        }
      } else {
        panel := PanelWith(None);
        rerun := ChatPanel(None, query, clearPressed, apiKey, service);
      }
    }
  }
}
