/**
 * The topic extractor of the hallucination rail, `extract_key_topic(question)`:
 * it posts a fixed prompt built around the question to a text-generation
 * endpoint and returns `generated_text` of the first element of the JSON
 * answer. The endpoint is a parameter of the model.
 */
module TopicRequest {
  import opened Wrappers
  import opened Python

  /** A decoded JSON value, as `response.json()` gives it. */
  datatype Json =
    | JNull
    | JBool(b: bool)
    | JNumber(n: int)
    | JString(s: string)
    | JArray(items: seq<Json>)
    | JObject(fields: map<string, Json>)

  /** The fixed text the question is formatted into. */
  const PromptPrefix := "Question: What is the key query topic in this question in under 5 words? Context: "

  /** The key of the answer element that holds the generated text. */
  const GeneratedTextKey := "generated_text"

  /**
   * The question recovered from an `inputs` text: what follows the fixed
   * prefix, or nothing when the text does not start with it.
   */
  function QuestionOf(inputs: string): (q: Option<string>)
    ensures q.Some? <==> PromptPrefix <= inputs
    ensures q.Some? ==> PromptPrefix + q.value == inputs
  {
    if PromptPrefix <= inputs then Some(inputs[|PromptPrefix|..]) else None
  }

  /**
   * The request body: `inputs` is the fixed prefix followed by the question
   * verbatim, and `parameters` is an empty object.
   */
  function TopicPayload(question: string): (payload: Json)
    ensures payload.JObject? && payload.fields.Keys == {"inputs", "parameters"}
    ensures payload.fields["parameters"] == JObject(map[])
    ensures payload.fields["inputs"].JString?
    ensures QuestionOf(payload.fields["inputs"].s) == Some(question)
  {
    var inputs := PromptPrefix + question;
    assert inputs[|PromptPrefix|..] == question;
    JObject(map["inputs" := JString(inputs), "parameters" := JObject(map[])])
  }

  /**
   * `output[0]['generated_text']` with Python's indexing: an empty list fails
   * with `IndexError`, a first element without the key with `KeyError`, and
   * anything that cannot be indexed that way with `TypeError`.
   */
  function GeneratedText(output: Json): (r: Result<Json, Exception>)
    ensures r.Ok? <==>
      output.JArray? && |output.items| > 0 && output.items[0].JObject? &&
      GeneratedTextKey in output.items[0].fields
    ensures r.Ok? ==> r.value == output.items[0].fields[GeneratedTextKey]
    ensures output == JArray([]) ==> r == Err(IndexError)
    ensures (output.JArray? && |output.items| > 0 && output.items[0].JObject? &&
             GeneratedTextKey !in output.items[0].fields) ==> r == Err(KeyError)
  {
    match output
    case JArray(items) =>
      if |items| == 0 then Err(IndexError)
      else (
        match items[0]
        case JObject(fields) =>
          if GeneratedTextKey in fields then Ok(fields[GeneratedTextKey]) else Err(KeyError)
        case _ => Err(TypeError)
      )
    // indexing a dictionary with 0 looks up a key that a JSON object never has
    case JObject(_) => Err(KeyError)
    case JString(s) => if |s| == 0 then Err(IndexError) else Err(TypeError)
    case _ => Err(TypeError)
  }

  /**
   * `extract_key_topic(question)`, given the endpoint as the function from the
   * request body to the decoded answer.
   */
  function ExtractKeyTopic(question: string, endpoint: Json -> Json): (r: Result<Json, Exception>)
    ensures var a := endpoint(TopicPayload(question));
      (r.Ok? <==> a.JArray? && |a.items| > 0 && a.items[0].JObject? && GeneratedTextKey in a.items[0].fields) &&
      (r.Ok? ==> r.value == a.items[0].fields[GeneratedTextKey])
  {
    GeneratedText(endpoint(TopicPayload(question)))
  }

  /**
   * The answer the extractor returns is the generated text of the first
   * element the endpoint sends back for the prompt of the question, whatever
   * other keys that element holds and whatever elements follow it.
   */
  lemma ExtractKeyTopicReturnsFirstText(question: string, endpoint: Json -> Json, first: map<string, Json>, rest: seq<Json>)
    requires GeneratedTextKey in first
    requires endpoint(TopicPayload(question)) == JArray([JObject(first)] + rest)
    ensures ExtractKeyTopic(question, endpoint) == Ok(first[GeneratedTextKey])
  {
  }

  /** An endpoint that answers with an empty list makes the extractor fail. */
  lemma ExtractKeyTopicFailsOnEmptyAnswer(question: string, endpoint: Json -> Json)
    requires endpoint(TopicPayload(question)) == JArray([])
    ensures ExtractKeyTopic(question, endpoint) == Err(IndexError)
  {
  }

  /** Distinct questions give distinct requests: the prompt keeps the question verbatim. */
  lemma PayloadDeterminesQuestion(q1: string, q2: string)
    requires TopicPayload(q1) == TopicPayload(q2)
    ensures q1 == q2
  {
  }
}
