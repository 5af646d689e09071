/**
 * The structured-data extraction of `llm_service.py`: the document text is
 * put into a fixed prompt, the model's reply is trimmed and stripped of a
 * Markdown JSON fence, and the rest is parsed as JSON; a reply that does not
 * parse becomes a record holding only an error message.
 */
module LlmService {
  import opened Wrappers
  import opened Text
  import opened Records

  /** The JSON schema the prompt asks the model to follow. */
  const Schema := "\n{\n  \"shipment_id\": \"string\",\n  \"sender_name\": \"string\",\n  \"sender_address\": \"string\",\n  \"receiver_name\": \"string\",\n  \"receiver_address\": \"string\",\n  \"items\": [{\"description\": \"string\", \"quantity\": \"number\", \"weight\": \"number\", \"value\": \"number\"}],\n  \"total_weight\": \"number\",\n  \"total_value\": \"number\",\n  \"shipment_date\": \"string\"\n}\n"

  const SystemPrompt := "You are a helpful assistant that extracts structured data from shipment documents accurately. Output only valid JSON matching the schema."

  const Model := "claude-3-haiku-20240307"
  const MaxTokens := 1000

  /** The opening fence removed from the start of a reply, and the closing one removed from its end. */
  const Opener := "```json\n"
  const Closer := "```"

  const ParseFailure := "Failed to parse JSON from LLM response"

  /** One request to the model: which model, the token budget, the system prompt and the user's message. */
  datatype Request = Request(model: string, maxTokens: nat, system: string, user: string)

  /** The request sent for a document's text: the schema prompt followed by the text. */
  function RequestFor(documentText: string): Request {
    Request(Model, MaxTokens, SystemPrompt,
            "Extract the data to JSON following this schema: " + Schema + "\n\nDocument text:\n" + documentText)
  }

  /**
   * The request names the model, the token budget and the system prompt;
   * its message opens with the schema prompt and ends with the document's text.
   */
  lemma RequestShape(documentText: string)
    ensures var r := RequestFor(documentText);
      r.model == Model && r.maxTokens == MaxTokens && r.system == SystemPrompt
      && StartsWith(r.user, "Extract the data to JSON following this schema: " + Schema)
      && EndsWith(r.user, "\n\nDocument text:\n" + documentText)
  {
    var head := "Extract the data to JSON following this schema: " + Schema;
    var tail := "\n\nDocument text:\n" + documentText;
    var user := RequestFor(documentText).user;
    assert user == head + tail;
    assert user[..|head|] == head;
    assert user[|user| - |tail|..] == tail;
  }

  /**
   * `re.sub(r'^```json\n|```$', '', reply.strip())`: after trimming, an
   * opening fence at the very start and a closing fence at the very end are
   * removed. The pattern is scanned once from the left, so the closing fence
   * counts only when it lies wholly after a removed opening fence; the
   * trimmed text ends in no newline, so `$` matches only at its end.
   */
  function StripFences(reply: string): (r: string)
    ensures var t := Strip(reply);
      StartsWith(t, Opener) && EndsWith(t, Closer) ==> t == Opener + r + Closer
    ensures var t := Strip(reply);
      StartsWith(t, Opener) && !EndsWith(t, Closer) ==> t == Opener + r
    ensures var t := Strip(reply);
      !StartsWith(t, Opener) && EndsWith(t, Closer) ==> t == r + Closer
    ensures var t := Strip(reply);
      !StartsWith(t, Opener) && !EndsWith(t, Closer) ==> r == t
  {
    var s := Strip(reply);
    var start := if StartsWith(s, Opener) then |Opener| else 0;
    FencesApart(s);
    var end := if EndsWith(s, Closer) && |s| - |Closer| >= start then |s| - |Closer| else |s|;
    assert s == s[..start] + s[start..end] + s[end..];
    s[start..end]
  }

  /** The two fences cannot overlap: a text that has both is long enough to hold them side by side. */
  lemma FencesApart(s: string)
    ensures StartsWith(s, Opener) && EndsWith(s, Closer) ==> |s| >= |Opener| + |Closer|
  {
    if StartsWith(s, Opener) && EndsWith(s, Closer) {
      assert forall i :: 3 <= i < |Opener| ==> s[i] == s[..|Opener|][i] != '`';
      assert s[|s| - |Closer|] == s[|s| - |Closer|..][0] == '`';
    }
  }

  /** Equal texts with the same ends have the same middle. */
  lemma SameMiddle(x: string, y: string)
    requires Opener + x + Closer == Opener + y + Closer
    ensures x == y
  {
    var s := Opener + x + Closer;
    assert s[|Opener|..|s| - |Closer|] == x;
    assert (Opener + y + Closer)[|Opener|..|s| - |Closer|] == y;
  }

  /** The record returned when the reply does not parse. */
  const ErrorRecord := Record(map["error" := ParseFailure], None)

  /**
   * `extract_data_from_document`: `complete` stands for the model's reply to
   * a request and `parse` for `json.loads` of the cleaned reply into a record.
   */
  function ExtractDataFromDocument(documentText: string, complete: Request -> string,
                                   parse: string -> Option<Record>): (r: Record)
    ensures parse(StripFences(complete(RequestFor(documentText)))).None? ==> r == ErrorRecord
    ensures parse(StripFences(complete(RequestFor(documentText)))).Some? ==>
      r == parse(StripFences(complete(RequestFor(documentText)))).value
  {
    match parse(StripFences(complete(RequestFor(documentText))))
    case Some(data) => data
    case None => ErrorRecord
  }

  /** A reply wrapped in a JSON fence gives back exactly what the fence wraps. */
  lemma StripFencesUnwraps(body: string)
    ensures StripFences(Opener + body + Closer) == body
  {
    var s := Opener + body + Closer;
    assert Strip(s) == s by {
      StripUnchanged(s);
    }
    assert StartsWith(s, Opener) && EndsWith(s, Closer) by {
      assert s[..|Opener|] == Opener;
      assert s[|s| - |Closer|..] == Closer;
    }
    var r := StripFences(s);
    assert s == Opener + r + Closer;
    SameMiddle(r, body);
  }

  /** A fenced reply yields the parse of what the fence wraps, or the error record. */
  lemma ExtractFencedReply(documentText: string, complete: Request -> string,
                           parse: string -> Option<Record>, body: string)
    requires Strip(complete(RequestFor(documentText))) == Opener + body + Closer
    ensures ExtractDataFromDocument(documentText, complete, parse)
      == if parse(body).Some? then parse(body).value else ErrorRecord
  {
    var reply := complete(RequestFor(documentText));
    StripFencesIgnoresSpace(reply);
    StripFencesUnwraps(body);
  }

  /** A reply without fences yields the parse of the trimmed reply, or the error record. */
  lemma ExtractUnfencedReply(documentText: string, complete: Request -> string, parse: string -> Option<Record>)
    requires var t := Strip(complete(RequestFor(documentText)));
      !StartsWith(t, Opener) && !EndsWith(t, Closer)
    ensures var t := Strip(complete(RequestFor(documentText)));
      ExtractDataFromDocument(documentText, complete, parse)
        == if parse(t).Some? then parse(t).value else ErrorRecord
  {
  }

  /** Surrounding whitespace never matters: the reply is trimmed before anything else. */
  lemma StripFencesIgnoresSpace(reply: string)
    ensures StripFences(reply) == StripFences(Strip(reply))
  {
    StripIdempotent(reply);
  }

  /** A fence without the `json` tag is kept at the start; only the closing fence goes. */
  lemma UntaggedFenceKept()
    ensures StripFences("```\n{}\n```") == "```\n{}\n"
  {
    var s := "```\n{}\n```";
    StripUnchanged(s);
    assert !StartsWith(s, Opener) by {
      assert s[3] != Opener[3];
    }
    assert EndsWith(s, Closer) by {
      assert s[|s| - 3..] == "```";
    }
  }

  /** A reply that is only a closing fence leaves nothing to parse. */
  lemma BareCloserRemoved()
    ensures StripFences(" ``` ") == ""
  {
    var s := " ``` ";
    assert Strip(s) == "```" by {
      assert SkipSpaces(s, 0) == 1;
      assert SkipSpacesBack(s, 1, 5) == 4;
    }
  }
}
