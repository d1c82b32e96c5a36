/**
 * `get_reply` and the start-up of the chatbot: the catalog is fetched once
 * (an empty catalog when the fetch fails), then each message is answered by a
 * direct substring match against the catalog or, failing that, by an LLM
 * classifier whose outcome is an input here.
 */
module Chatbot {
  import opened Wrappers
  import opened Text
  import opened Table
  import opened Money
  import SquareApi

  /** What the classifier call produced: no client configured, an exception (with its text), or the completion text. */
  datatype Classifier = NoClient | Failed(error: string) | Answer(content: string)

  /** The outcome of one `get_reply` call, before it is rendered as text. */
  datatype Reply =
    | DirectMatch(item: string, cents: int)
    | ClassifiedMatch(item: string, cents: int)
    | NotFound
    | NotConfigured
    | ClassifierError
    | Unrecognized

  const NotFoundSentinel: string := "not_found"

  /** The first key, in table order, that occurs in `text`. */
  function FirstMatch(catalog: Table, text: string): (r: Option<nat>)
    ensures r.Some? ==> r.value < |catalog| && Contains(text, catalog[r.value].0)
    ensures r.Some? ==> forall j :: 0 <= j < r.value ==> !Contains(text, catalog[j].0)
    ensures r.None? ==> forall j :: 0 <= j < |catalog| ==> !Contains(text, catalog[j].0)
  {
    if catalog == [] then None
    else if Contains(text, catalog[0].0) then Some(0)
    else
      match FirstMatch(catalog[1..], text)
      case None => None
      case Some(k) => Some(k + 1)
  }

  /** Some key of the catalog occurs in the lower-cased message. */
  predicate HasDirectMatch(catalog: Table, message: string) {
    exists i :: 0 <= i < |catalog| && Contains(Lower(message), catalog[i].0)
  }

  /** The decision `get_reply` takes. */
  function Resolve(catalog: Table, message: string, classifier: Classifier): (r: Reply)
    ensures r.DirectMatch? <==> HasDirectMatch(catalog, message)
    ensures r.DirectMatch? ==>
              exists i :: && 0 <= i < |catalog| && catalog[i] == (r.item, r.cents)
                          && Contains(Lower(message), r.item)
                          && forall j :: 0 <= j < i ==> !Contains(Lower(message), catalog[j].0)
    ensures r == NotConfigured <==> !HasDirectMatch(catalog, message) && classifier == NoClient
    ensures r == ClassifierError <==> !HasDirectMatch(catalog, message) && classifier.Failed?
    ensures r.ClassifiedMatch? ==>
              classifier.Answer? && r.item == Clean(classifier.content) && Lookup(catalog, r.item) == Some(r.cents)
    ensures r == NotFound ==>
              classifier.Answer? && Clean(classifier.content) == NotFoundSentinel && NotFoundSentinel !in Keys(catalog)
  {
    match FirstMatch(catalog, Lower(message))
    case Some(i) => DirectMatch(catalog[i].0, catalog[i].1)
    case None =>
      match classifier
      case NoClient => NotConfigured
      case Failed(_) => ClassifierError
      case Answer(content) =>
        var item := Clean(content);
        match Lookup(catalog, item)
        case Some(price) => ClassifiedMatch(item, price)
        case None => if item == NotFoundSentinel then NotFound else Unrecognized
  }

  /** `f"The {item} costs ${price:.2f}."` */
  function PriceSentence(item: string, cents: int): string {
    "The " + item + " costs $" + ShowCents(cents) + "."
  }

  /** The text shown for a reply. */
  function Render(r: Reply): string {
    match r
    case DirectMatch(item, cents) => PriceSentence(item, cents)
    case ClassifiedMatch(item, cents) => PriceSentence(item, cents)
    case NotFound => "I couldn't find the item in the catalog."
    case NotConfigured => "OpenAI not configured. Please set API key."
    case ClassifierError => "Sorry, I cannot answer that right now. Please try another question."
    case Unrecognized => "Sorry, I couldn't understand the question."
  }

  /** `get_reply(user_message)`, with the catalog and the classifier's outcome as inputs. */
  method GetReply(catalog: Table, userMessage: string, classifier: Classifier) returns (reply: string)
    ensures reply == Render(Resolve(catalog, userMessage, classifier))
  {
    var text := Lower(userMessage);
    for i := 0 to |catalog|
      invariant forall j :: 0 <= j < i ==> !Contains(text, catalog[j].0)
    {
      var (item, price) := catalog[i];
      if Contains(text, item) {
        assert FirstMatch(catalog, text) == Some(i);
        return PriceSentence(item, price);
      }
    }
    assert FirstMatch(catalog, text).None?;
    match classifier {
      case NoClient =>
        return "OpenAI not configured. Please set API key.";
      case Failed(_) =>
        return "Sorry, I cannot answer that right now. Please try another question.";
      case Answer(content) =>
        var itemFromGpt := Clean(content);
        var price := Lookup(catalog, itemFromGpt);
        if price.Some? {
          return PriceSentence(itemFromGpt, price.value);
        }
        if itemFromGpt == NotFoundSentinel {
          return "I couldn't find the item in the catalog.";
        }
        return "Sorry, I couldn't understand the question.";
    }
  }

  /**
   * The module-level `catalog = fetch_catalog(...)` with its `except`
   * clauses: any failure leaves the catalog empty.
   */
  method LoadCatalog(accessToken: Option<string>, locationId: Option<string>, http: SquareApi.HttpOutcome)
    returns (catalog: Table)
    ensures SquareApi.Fetch(accessToken, http).Ok? ==> catalog == SquareApi.Fetch(accessToken, http).value
    ensures SquareApi.Fetch(accessToken, http).Err? ==> catalog == []
    ensures SquareApi.WellFormed(catalog)
  {
    var fetched := SquareApi.FetchCatalog(accessToken, locationId, http);
    match fetched {
      case Ok(t) => catalog := t;
      case Err(_) => catalog := [];
    }
  }

  /** A direct match decides the reply whatever the classifier would have said: it is never consulted. */
  lemma DirectMatchIgnoresClassifier(catalog: Table, message: string, c1: Classifier, c2: Classifier)
    requires HasDirectMatch(catalog, message)
    ensures Resolve(catalog, message, c1) == Resolve(catalog, message, c2)
    ensures Resolve(catalog, message, c1).DirectMatch?
  {
  }

  /**
   * For one classifier outcome, messages that differ only in the case of ASCII
   * letters get the same reply. The classifier itself sees the message as typed,
   * so its outcome may still differ between the two.
   */
  lemma MatchIgnoresCase(catalog: Table, m1: string, m2: string, classifier: Classifier)
    requires SameIgnoringCase(m1, m2)
    ensures Resolve(catalog, m1, classifier) == Resolve(catalog, m2, classifier)
  {
    SameIgnoringCaseLower(m1, m2);
  }

  /** With an empty catalog and no client every message gets the configuration notice. */
  lemma EmptyCatalogWithoutClient(message: string)
    ensures Render(Resolve([], message, NoClient)) == "OpenAI not configured. Please set API key."
  {
  }

  /** A failed classifier call yields a reply that does not depend on the error. */
  lemma ErrorTextHidden(catalog: Table, message: string, e1: string, e2: string)
    ensures Render(Resolve(catalog, message, Failed(e1))) == Render(Resolve(catalog, message, Failed(e2)))
    ensures !HasDirectMatch(catalog, message) ==>
              Render(Resolve(catalog, message, Failed(e1))) == "Sorry, I cannot answer that right now. Please try another question."
  {
    assert Resolve(catalog, message, Failed(e1)) == Resolve(catalog, message, Failed(e2));
  }

  /**
   * The classifier's answer is recognised whatever its letter case and
   * surrounding whitespace: a catalog key gives that key's price, and the
   * sentinel `not_found` gives the apology unless it is itself a key.
   */
  lemma {:induction false} PaddedAnswer(catalog: Table, message: string, pre: string, answer: string, post: string)
    requires !HasDirectMatch(catalog, message)
    requires AllSpace(pre) && AllSpace(post) && IsTrimmed(answer)
    ensures Lookup(catalog, Lower(answer)).Some? ==>
              Resolve(catalog, message, Answer(pre + answer + post))
              == ClassifiedMatch(Lower(answer), Lookup(catalog, Lower(answer)).value)
    ensures Lower(answer) == NotFoundSentinel && NotFoundSentinel !in Keys(catalog) ==>
              Resolve(catalog, message, Answer(pre + answer + post)) == NotFound
  {
    StripPadding(pre, answer, post);
  }

  /** The example of a two-item catalog: a message naming the taco gets the taco's price. */
  lemma TacoExample(classifier: Classifier)
    ensures Render(Resolve([("taco", 350), ("burrito", 725)], "How much is the TACO", classifier))
            == "The taco costs $3.50."
  {
    TacoIsMatched(classifier);
    TacoPriceShown();
  }

  lemma TacoIsMatched(classifier: Classifier)
    ensures Resolve([("taco", 350), ("burrito", 725)], "How much is the TACO", classifier) == DirectMatch("taco", 350)
  {
    var text := Lower("How much is the TACO");
    assert text == "how much is the taco";
    assert OccursAt("taco", text, 16);
  }

  lemma TacoPriceShown()
    ensures PriceSentence("taco", 350) == "The taco costs $3.50."
  {
    assert ShowNat(3) == "3";
    assert ShowCents(350) == "3.50";
  }
}
