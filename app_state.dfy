/**
 * The component state of the portal page (src/App.tsx): the language
 * toggle, the search results and the AI assistant's request cycle.
 * The text-completion service is not modelled; its outcome is a parameter.
 */
module PortalState {
  import opened Wrappers
  import opened PropertySearch

  datatype Language = En | Am

  /** The Navbar button: English becomes Amharic and Amharic becomes English. */
  function Toggled(l: Language): (r: Language)
    ensures r != l
  {
    if l == En then Am else En
  }

  lemma ToggledTwice(l: Language)
    ensures Toggled(Toggled(l)) == l
  {
  }

  /** The state of the `App` component. */
  class Portal {
    var lang: Language
    var searchTerm: string
    var results: seq<PropertyRecord>

    constructor ()
      ensures lang == Am && searchTerm == "" && results == []
    {
      lang, searchTerm, results := Am, "", [];
    }

    /** The search-results section is rendered only when this holds. */
    function ResultsShown(): (shown: bool)
      reads this
      ensures shown <==> results != []
    {
      |results| > 0
    }

    method SetSearchTerm(term: string)
      modifies this`searchTerm
      ensures searchTerm == term
    {
      searchTerm := term;
    }

    /** Submitting the search form. */
    method HandleSearch()
      modifies this`results
      ensures results == Filter(MockRecords(), searchTerm)
      ensures forall r :: r in results <==> r in MockRecords() && Matches(r, searchTerm)
      ensures |results| <= |MockRecords()|
    {
      results := PropertySearch.HandleSearch(searchTerm);
      SearchNeverLonger(searchTerm);
    }

    /** The "Clear results" button. */
    method ClearResults()
      modifies this`results
      ensures results == [] && !ResultsShown()
    {
      results := [];
    }

    /** The language button of the Navbar. */
    method ToggleLanguage()
      modifies this`lang
      ensures lang == Toggled(old(lang)) && lang != old(lang)
    {
      lang := Toggled(lang);
    }
  }

  /** What the completion service gave back to `askAI`. */
  datatype Reply =
    | Answered(text: Option<string>)   // `result.text`, possibly undefined
    | Unavailable                      // the call threw

  const Apology := "I'm sorry, I couldn't process that request."
  const OfflineNotice := "The assistant is currently offline. Please try again later."

  /** The text `askAI` stores in `response` for a given outcome. */
  function ResponseText(reply: Reply): (s: string)
    ensures s != ""
    ensures reply.Answered? && reply.text.Some? && reply.text.value != "" ==> s == reply.text.value
    ensures reply.Answered? && (reply.text.None? || reply.text.value == "") ==> s == Apology
    ensures reply.Unavailable? ==> s == OfflineNotice
  {
    match reply
    case Answered(Some(text)) => if text != "" then text else Apology
    case Answered(None) => Apology
    case Unavailable => OfflineNotice
  }

  /** The state of the `AICadasterAssistant` component. */
  class Assistant {
    var query: string
    var response: Option<string>
    var loading: bool

    constructor ()
      ensures query == "" && response == None && !loading
    {
      query, response, loading := "", None, false;
    }

    method SetQuery(q: string)
      modifies this`query
      ensures query == q
    {
      query := q;
    }

    /** The part of `askAI` before the request is awaited. */
    method BeginAsk() returns (started: bool)
      modifies this`loading
      ensures started <==> query != ""
      ensures loading == (started || old(loading))
    {
      if query == "" {
        return false;
      }
      loading := true;
      started := true;
    }

    /** The part of `askAI` after the request settles: the try/catch/finally. */
    method FinishAsk(reply: Reply)
      modifies this`response, this`loading
      ensures response == Some(ResponseText(reply)) && !loading
    {
      response := Some(ResponseText(reply));
      loading := false;
    }

    /** `askAI` as a whole, for one outcome of the service call. */
    method AskAI(reply: Reply)
      modifies this`response, this`loading
      ensures query == "" ==> response == old(response) && loading == old(loading)
      ensures query != "" ==> response == Some(ResponseText(reply)) && !loading
    {
      var started := BeginAsk();
      if started {
        FinishAsk(reply);
      }
    }
  }
}
