# HostBuddy price chatbot: catalog normalisation and reply selection

HostBuddy is a small restaurant chatbot that answers price questions. At start-up it
downloads the merchant's item catalog from the Square catalog API (`fetch_catalog`). The
download becomes a table from item name to price. If the download fails, the chatbot
continues with an empty table. Each message is answered by `get_reply`:

- If some catalog name occurs in the lower-cased message, the reply is that item's price.
- Otherwise an LLM classifier is asked to name the item. Its answer is trimmed and lower-cased.
- That answer is then looked up in the table or compared with the sentinel `not_found`.

This project is a Dafny model of those two pieces, with proofs of what they guarantee.

Modules:

- `Wrappers`: `Option` and `Result`.
- `Text`: Python's `str.lower`, `str.strip` and `in` on strings, over ASCII.
- `Table`: a Python `dict` from names to prices. It is a sequence of pairs in insertion order. `Insert` overwrites a key in place or appends a new one, as `catalog[name] = price` does.
- `Money`: prices are integer cents. `ShowCents` is the `{price:.2f}` rendering of `cents / 100`. `ParseCents` is its inverse.
- `SquareApi`: `fetch_catalog`.
  - The decoded JSON response is modelled as typed records. An absent key is `None`. A value of the wrong JSON kind is `Unexpected`.
  - `ParseObject` gives the effect of one loop iteration on one object: skip it, add a name and price, or raise.
  - `Build` folds those effects into the table. `Fetch` adds the token and status checks.
  - The imperative method `FetchCatalog` follows the Python loop statement by statement, `continue` included, and is proved equal to `Fetch`.
- `Chatbot`: `get_reply` and the start-up rule that degrades a failed fetch to an empty catalog.
  - `Resolve` is the decision taken and `Render` the text shown.
  - The method `GetReply` follows the Python search loop with its early return, and is proved equal to `Render(Resolve(..))`.
  - The classifier call is an input of type `Classifier`: no client, a failed call, or the completion text.

Two behaviours follow the code even where a reader might expect otherwise:

- A classifier answer that is neither a catalog name nor `not_found` does not produce the "not found" apology. In the code that case falls out of the `try` block into a tail that does not parse (streamlit-chatbot.py:82-89). The model gives that case its own outcome, `Unrecognized`. It is rendered with line 87's text, which is what the tail returns for a message that contains neither "list" nor "how many". The tail's item-list reply for messages with those words (lines 84-86) is left out.
- A malformed catalog object does not always just get skipped. Two lines run outside the `try` and can raise. Line 23 calls `get` on the object. Line 26 calls `get` on the item data and `.strip()` on the name. Line 25 itself cannot raise, but a present `item_data` that is not an object (null, say) makes line 26 raise. A value of the wrong kind in any of these places raises, and the whole fetch fails. `ParseObject` returns `Abort` in those cases, `BuildFails` proves that one such object fails the fetch, and `LoadCatalog` then yields an empty catalog.

## Model

| member | source | states |
|---|---|---|
| SquareApi.Fetch | square_api.py:8-20 | A missing or empty token fails with `MissingToken` before any request. A failed request fails with `Transport`. A status other than 200 fails with that status. A 200 response whose body or `objects` has the wrong kind fails with `Malformed`. A 200 response without `objects` gives the empty table, and one with an object list gives the normalised table of that list. Every table returned has distinct, cleaned names. |
| SquareApi.FetchCatalog | square_api.py:4-37 | The loop with `continue` returns exactly what `Fetch` specifies, and the loop invariant keeps the partial table equal to the fold over the objects seen so far. Its table has distinct cleaned names. |
| SquareApi.ItemDataOf | square_api.py:25-26 | `obj.get("item_data", {})`: an absent `item_data` is an empty record, and one of the wrong kind makes line 26 raise. Its effect is stated in `ParseObject`'s contract. |
| SquareApi.RawName | square_api.py:26 | `item_data.get("name", "")`: an absent name is the empty text, and one that is not a string makes `.strip()` raise. Its effect is stated in `ParseObject`'s contract. |
| SquareApi.FirstAmount | square_api.py:29-30 | The guarded chain from `variations[0]` to `amount`: the amount when every step succeeds, and none when any step would raise inside the `try`. `ParseObject`'s contract states how this decides between adding and skipping. |
| SquareApi.ParseObject | square_api.py:22-36 | A non-ITEM object is skipped. An ITEM raises exactly when the object, its `item_data` or its `name` has the wrong kind. An ITEM adds an entry exactly when the first variation's amount is present and the cleaned name is non-empty. The entry's name is the stripped, lower-cased `name` and its price is that amount. |
| SquareApi.Step | square_api.py:22-36 | One iteration of the loop over the table built so far: a skip leaves it, an add assigns the name, and an abort fails. Its effect is proved in `BuildLookup`, `BuildOrder`, `BuildSkip` and `BuildFails`. |
| SquareApi.Build | square_api.py:20-37 | The loop as a fold over the objects' effects. It is characterised by `BuildLookup` (last wins), `BuildOrder` (first-insertion order), `BuildSkip` and `BuildFails`, and `FetchCatalog` is proved to compute it. |
| SquareApi.Normalize | square_api.py:20-37 | The loop over the `objects` list: `Build` of each object's effect. `NormalizeWellFormed` and `SkipIsTransparent` are stated on it, and `Fetch`'s contract uses it for a 200 response. |
| SquareApi.LastPrice | square_api.py:29-33 | A reference definition with no table: the price of the last object that stores under a name, with no later object storing under it. It is `None` exactly when no object stores under it. |
| SquareApi.BuildLookup | square_api.py:29-33 | Last wins: when the loop finishes, looking a name up in the table gives the price of the last object that stored under it, and absent when none did. |
| SquareApi.BuildOrder | square_api.py:33 | The table's keys appear in the order in which their names were first inserted. A later object with the same name overwrites the price but does not move the key. |
| SquareApi.BuildSkip | square_api.py:22-24 | A skipped object leaves the outcome of the loop over the rest unchanged. |
| SquareApi.SkipIsTransparent | square_api.py:22-36 | Removing an object that is skipped (not an ITEM, no price, or an empty name) from anywhere in the list does not change the fetched table. Later objects are still processed. |
| SquareApi.BuildFails | square_api.py:23-26 | The loop fails exactly when some object raises outside the `try`, and the failure is `Malformed`. |
| SquareApi.BuildWellFormed | square_api.py:26-33 | Every key of a table built by the loop is non-empty, lower-case and trimmed, and no key repeats. |
| SquareApi.NormalizeWellFormed | square_api.py:20-37 | Normalising any object list that succeeds gives a table with distinct cleaned names. |
| SquareApi.FetchTwice | square_api.py:20-37 | Fetching twice from the same inputs gives the same outcome. |
| Table.Lookup | streamlit-chatbot.py:76-77 | `key in catalog` and `catalog[key]`: absent exactly when the key is not among the keys. Otherwise the result is the value stored at the key's position, unique when keys are distinct. |
| Table.Insert | square_api.py:33 | `catalog[name] = price` on an insertion-ordered dict. Its behaviour is proved in `InsertKeys`, `InsertLookup` and `InsertKeepsDistinct`. |
| Table.InsertKeys | square_api.py:33 | Assigning to an existing key leaves the key sequence unchanged. A new key is appended at the end. |
| Table.InsertLookup | square_api.py:33 | After the assignment the key maps to the new price, and every other key keeps its lookup. |
| Table.InsertKeepsDistinct | square_api.py:33 | Assignment keeps the keys distinct. |
| Text.LowerChar | streamlit-chatbot.py:53 | One character lower-cased: an ASCII capital becomes its own small letter, a character that is not a capital is unchanged, and the result is never a capital. |
| Text.Lower | streamlit-chatbot.py:53 | `str.lower`: same length, lower-cased character by character, and no upper-case letter is left. |
| Text.Strip | square_api.py:26 | `str.strip`: the result is trimmed, and it is a slice of the input with only whitespace around it. |
| Text.StripUnique | square_api.py:26 | Any trimmed slice with only whitespace around it is the result of `Strip`. Together with `Strip`'s contract, this characterises the function completely. |
| Text.Clean | square_api.py:26 | `.strip().lower()`: lower-case, trimmed, and no longer than the input. |
| Text.StripPadding | streamlit-chatbot.py:75 | Stripping a trimmed text with whitespace added on either side gives back that text. |
| Text.Contains | streamlit-chatbot.py:56 | `needle in haystack`: true exactly when the needle occurs at some position of the haystack. |
| Text.SameIgnoringCaseLower | streamlit-chatbot.py:53 | Texts that differ only in the case of ASCII letters have the same lower-cased form. |
| Money.ShowNatValue | streamlit-chatbot.py:57 | The decimal digits written for a natural number read back as that number. |
| Money.ShowUnsignedCents | streamlit-chatbot.py:57 | The `.2f` form of a non-negative number of cents: at least one digit before the point, no leading zero unless the whole part is zero, and exactly two digits after. |
| Money.ShowCents | streamlit-chatbot.py:57 | `{price:.2f}` of a signed number of cents: a minus sign before the unsigned form when negative. It is never empty. `ShowCentsRoundTrip` proves it loses nothing, and `ShowUnsignedCents` gives its shape. |
| Money.ShowCentsRoundTrip | streamlit-chatbot.py:57 | Reading the printed price back gives the original number of cents. The rendering is exact and loses nothing. |
| Chatbot.FirstMatch | streamlit-chatbot.py:55-56 | The position of the first key, in table order, that occurs in the text. `None` exactly when no key occurs. |
| Chatbot.Resolve | streamlit-chatbot.py:52-82 | A direct match happens exactly when some key occurs in the lower-cased message, and it is the first such key with its price. Without a direct match: no client gives `NotConfigured`, and a failed call gives `ClassifierError`. A classified match is the cleaned answer and its catalog price. `NotFound` means the cleaned answer is `not_found` and that is not a key. |
| Chatbot.PriceSentence | streamlit-chatbot.py:57 | `f"The {item} costs ${price:.2f}."`, with the price rendered by `ShowCents`. `TacoExample` gives a concrete instance. |
| Chatbot.Render | streamlit-chatbot.py:57-87 | The reply text for each decision: the price sentence of lines 57 and 77, and the fixed texts of lines 61, 79 and 82, plus line 87's text for `Unrecognized`. `GetReply` is proved to return exactly this text. |
| Chatbot.GetReply | streamlit-chatbot.py:52-82 | The search loop with its early return, then the classifier branches, yields exactly the rendered decision `Resolve` specifies. |
| Chatbot.LoadCatalog | streamlit-chatbot.py:27-35 | A successful fetch becomes the catalog. Any failure leaves the catalog empty instead of stopping the program. The catalog always has distinct cleaned names. |
| Chatbot.DirectMatchIgnoresClassifier | streamlit-chatbot.py:55-57 | When some key occurs in the message, the reply is a direct match whatever the classifier would have answered. |
| Chatbot.MatchIgnoresCase | streamlit-chatbot.py:53-56 | For the same classifier outcome, messages that differ only in ASCII letter case get the same reply. |
| Chatbot.EmptyCatalogWithoutClient | streamlit-chatbot.py:60-61 | With an empty catalog and no client, every message gets "OpenAI not configured. Please set API key.". |
| Chatbot.ErrorTextHidden | streamlit-chatbot.py:80-82 | A failed classifier call gives a reply that does not depend on the error. Without a direct match, it is the fixed apology. |
| Chatbot.PaddedAnswer | streamlit-chatbot.py:75-79 | A classifier answer is recognised whatever its case and surrounding whitespace. A catalog key gives a classified match with that key's price. `not_found` gives `NotFound` unless it is itself a key, since the key test comes first. |
| Chatbot.TacoExample | streamlit-chatbot.py:55-57 | With the catalog taco 3.50 and burrito 7.25, "How much is the TACO" is answered "The taco costs $3.50." whatever the classifier says. |

## Left out

- HTTP request construction, the headers and the 10-second timeout (square_api.py:10-16) are left out. The request's result is an input (`HttpOutcome`): a transport failure, or a status and a decoded body. A body that does not decode as JSON or is not an object is `Unexpected`.
- `location_id` is accepted and unused, as in the source.
- The classifier sees the message as typed (streamlit-chatbot.py:64), but its outcome is an input here. So case-insensitivity (`MatchIgnoresCase`) is promised only for a fixed classifier outcome.
- `SquareApi.Fetch` does not model the error message text (`resp.text` in the status error): it is I/O output.
- Secret loading from Streamlit or `.env` (streamlit-chatbot.py:7-16) is left out: it is configuration I/O. The token is an optional input. The OpenAI client (line 24) is reduced to the `NoClient` case of `Classifier`.
- The prompt text and the completion call (streamlit-chatbot.py:63-74) are an external service. Their outcome is the `Classifier` input. The `resp.choices[0].message.content` access is part of that outcome: an exception there is `Failed`.
- The tail of `get_reply` (streamlit-chatbot.py:83-89) is left out, including the "list / how many" branch. It does not parse as written: the `return` on line 82 is not indented under its `except`, and a second `except` follows. `Unrecognized` is a fallback chosen for the case that falls into it, rendered with line 87's text.
- The `ImportError` branch (streamlit-chatbot.py:30-32) is not modelled separately. Module loading is not modelled, and the branch has the same result as a failed fetch (an empty catalog).
- The Streamlit page, the transcript appends and their rendering (streamlit-chatbot.py:38-50, 91-103) are UI.
- Float prices are left out. Prices are integer cents. `ShowCents` is the `.2f` rendering of `amount / 100.0`, which agrees with the float computation for amounts below about 10^15 cents.
- SquareApi.FirstAmount: an `amount` that is a JSON string, float or boolean is treated as absent, and the object is skipped. `float()` would accept such an amount. The Square API sends integer amounts.
- SquareApi.Fetch: an `objects` value that is an empty string or an empty object is treated as malformed. Python would iterate over nothing and return an empty table.
- Text.Lower: only ASCII letters are lower-cased. Python's `str.lower` also maps non-ASCII letters.
- Text.Strip: only ASCII whitespace and the separators U+001C to U+001F are stripped. Python's `str.strip` also strips other Unicode whitespace.
