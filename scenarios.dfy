/** Sessions driven through several passes, as a user would drive app.py. */
module Scenarios {
  import opened Wrappers
  import opened Strings
  import opened Ocr
  import opened Completion
  import opened Selector
  import opened Workflow

  const Dosage := "Amoxicillin" + " 500mg" + " twice daily"
  const Question := "What is the dosage?"

  lemma DosageIsTrimmed()
    ensures Trimmed(Dosage) && Dosage != ""
  {
    assert Dosage[0] == 'A' && Dosage[|Dosage| - 1] == 'y';
  }

  /** Upload and extract, press "Chat with this Prescription", pick the
      chat page in the sidebar, keep the first option of the selector and ask
      one question: the service is asked with the extracted text as context,
      and the transcript holds the question and the service's answer. */
  method ExtractThenChat(apiKey: string, stored: string, service: Request -> Reply)
    returns (data: Option<string>, asked: Request, history: seq<Message>)
    requires apiKey != ""
    ensures data == Some(Dosage)
    ensures asked == Request(AnalysingPrefix + ContextPrefix + Dosage, Question)
    ensures history == [Message(User, Question), Message(Assistant, Query(Some(apiKey), Question, data, service))]
  {
    var s := new Session();
    var rerun := s.Reconcile(ExtractText);
    DosageIsTrimmed();
    NormaliseTrimmed(Dosage);
    var extracted;
    extracted, rerun := s.Extract(Returned(Some(Dosage)), true);
    rerun := s.Reconcile(ChatWithData);
    var store := Reachable([Record(Dosage, stored)]);
    assert Resolve(store, Some(Dosage), 0) == Some(Dosage) by {
      ResolveUsesSelector(store, Some(Dosage), 0);
    }
    data := s.ChatPageData(store, 0);
    asked := BuildRequest(Question, data);
    var _ := s.SubmitQuery(Some(Question), data, Some(apiKey), service);
    history := s.history;
  }

  /** As written, the sidebar radio wins over the button: after "Chat with
      this Prescription" the next pass, with the radio still on "Extract
      Text", puts the session back on the extraction page; the extracted text
      stays current. */
  method RadioOverridesChatButton(text: string) returns (page: Page, current: Option<string>)
    requires Trimmed(text) && text != ""
    ensures page == ExtractText && current == Some(text)
  {
    var s := new Session();
    NormaliseTrimmed(text);
    var _, _ := s.Extract(Returned(Some(text)), true);
    assert s.page == ChatWithData;
    var _ := s.Reconcile(ExtractText);
    page, current := s.page, s.current;
  }

  /** With no API key, every query still completes a turn, and each reply is
      the fixed key error. */
  method TurnsWithoutKey(queries: seq<string>, service: Request -> Reply) returns (history: seq<Message>)
    requires forall k :: 0 <= k < |queries| ==> queries[k] != ""
    ensures |history| == 2 * |queries|
    ensures forall k :: 0 <= k < |queries| ==>
      history[2 * k] == Message(User, queries[k]) && history[2 * k + 1] == Message(Assistant, KeyMissing)
  {
    var s := new Session();
    var i := 0;
    ghost var h: seq<Message> := [];
    while i < |queries|
      invariant 0 <= i <= |queries|
      invariant s.Valid() && s.history == h && |h| == 2 * i
      invariant forall k :: 0 <= k < i ==>
        h[2 * k] == Message(User, queries[k]) && h[2 * k + 1] == Message(Assistant, KeyMissing)
    {
      var _ := s.SubmitQuery(Some(queries[i]), Some(Dosage), None, service);
      var h' := Turn(h, queries[i], KeyMissing);
      assert s.history == h';
      forall k | 0 <= k < i
        ensures h'[2 * k] == h[2 * k] && h'[2 * k + 1] == h[2 * k + 1]
      {
        assert h'[..|h|] == h;
      }
      h := h';
      i := i + 1;
    }
    history := s.history;
  }

  /** Clearing twice leaves the history empty, as clearing once does. */
  method ClearTwice(query: string, service: Request -> Reply) returns (first: seq<Message>, second: seq<Message>)
    requires query != ""
    ensures first == [] && second == []
  {
    var s := new Session();
    var _ := s.SubmitQuery(Some(query), None, None, service);
    var _ := s.ClearHistory(true);
    first := s.history;
    var _ := s.ClearHistory(true);
    second := s.history;
  }
}
