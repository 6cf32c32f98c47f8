/**
 * What the stages exchange: JSON records read from the working directory, and the choice
 * between the two language-model back ends.
 */
module Records {
  import opened Wrappers
  import opened Text

  /** A JSON record as read from a file: its fields in key order, every value a string. */
  type Item = seq<(string, string)>

  /** A file of the working directory: its name and its already-parsed list of records. */
  type SourceFile = (string, seq<Item>)

  datatype Model = ChatGPT | Gemini

  /** The wiki quote template {{q|excerpt|location|source}}: what the formatter writes and the validator reads back. */
  function QuoteTemplate(excerpt: string, location: string, source: string): string
  {
    "{{q|" + excerpt + "|" + location + "|" + source + "}}"
  }

  /** The back end named case-insensitively by the model name; None for any other name (the source raises). */
  function SelectModel(modelName: string): (r: Option<Model>)
    ensures r == Some(ChatGPT) <==> EqualsIgnoreCase(modelName, "ChatGPT")
    ensures r == Some(Gemini) <==> EqualsIgnoreCase(modelName, "Gemini")
  {
    assert Lower("ChatGPT") == "chatgpt" && Lower("Gemini") == "gemini";
    if Lower(modelName) == "chatgpt" then Some(ChatGPT)
    else if Lower(modelName) == "gemini" then Some(Gemini)
    else None
  }
}
