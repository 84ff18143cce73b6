/** The two collaborators of the fusion engine whose behaviour the model
    does not interpret: the category table read by
    `TagRepo.GetCategoriesFromDB` and the AI suggestion call
    `gemini.GetTagsFromAI`. Their replies are fixed when the backend is
    created; every call is appended to a log, so that a caller can state
    which calls it made and in which order. */
module Oracles {
  import opened Wrappers

  datatype Call = FetchCategories | AskAI(content: string)

  class Backend {
    /** What the database read returns: the category names, or an error. */
    const categoryReply: Result<seq<string>>
    /** What the AI service answers for a given post text. */
    const aiReply: string -> Result<seq<string>>
    /** The calls made so far, oldest first. */
    var calls: seq<Call>

    constructor (categoryReply: Result<seq<string>>, aiReply: string -> Result<seq<string>>)
      ensures this.categoryReply == categoryReply && this.aiReply == aiReply
      ensures calls == []
    {
      this.categoryReply := categoryReply;
      this.aiReply := aiReply;
      calls := [];
    }

    /** One read of all category names (no filter, no pagination). */
    method GetCategoriesFromDB() returns (r: Result<seq<string>>)
      modifies this
      ensures r == categoryReply
      ensures calls == old(calls) + [FetchCategories]
    {
      r := categoryReply;
      calls := calls + [FetchCategories];
    }

    /** One request to the AI service about `content`. */
    method GetTagsFromAI(content: string) returns (r: Result<seq<string>>)
      modifies this
      ensures r == aiReply(content)
      ensures calls == old(calls) + [AskAI(content)]
    {
      r := aiReply(content);
      calls := calls + [AskAI(content)];
    }
  }
}
