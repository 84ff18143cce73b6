/** The tag repository: the `GetSingle` selector and the fusion engine
    `TagTweetByContent`, which derives a post's three-level tag map from
    its owner, an AI suggestion filtered against the category table, and
    its hashtags. */
module TagRepo {
  import opened Wrappers
  import opened Seqs
  import Hashtags
  import Oracles

  const DefaultTag := "default_tag"
  const EmptyContent := "tweet content is empty"
  const CategoriesPrefix := "error fetching categories from database: "
  const AIPrefix := "AI error: "
  const InvalidRequest := "GetSingle - invalid request"

  datatype Owner = Owner(id: string)

  /** The fields of a post this core reads or writes. */
  datatype Tweet = Tweet(id: string, content: string, owner: Owner, tags: map<string, seq<string>>)

  /** `entity.Id`: a lookup request by id or by slug. */
  datatype IdRequest = IdRequest(id: string, slug: string)

  /** The `WHERE` condition `GetSingle` adds to its query. */
  datatype Lookup = ById(id: string) | BySlug(slug: string)
  {
    function Column(): string
    {
      match this
      case ById(_) => "id = ?"
      case BySlug(_) => "slug = ?"
    }

    function Key(): string
    {
      match this
      case ById(id) => id
      case BySlug(slug) => slug
    }
  }

  /** The selector of `GetSingle`: the id wins when it is set, the slug is
      used otherwise, and a request with neither fails before any query. */
  function GetSingleLookup(req: IdRequest): (r: Result<Lookup>)
    ensures r.Ok? <==> req.id != "" || req.slug != ""
    ensures r.Ok? ==> r.value.Key() != ""
    ensures req.id != "" ==> r == Ok(ById(req.id)) && r.value.Column() == "id = ?"
    ensures req.id == "" && req.slug != "" ==> r == Ok(BySlug(req.slug)) && r.value.Column() == "slug = ?"
    ensures r.Err? ==> r.msg == InvalidRequest
  {
    if req.id != "" then Ok(ById(req.id))
    else if req.slug != "" then Ok(BySlug(req.slug))
    else Err(InvalidRequest)
  }

  /** The allow-list: the category names the table returned. */
  function Catalog(categories: seq<string>): set<string>
  {
    set c | c in categories
  }

  function InCatalog(catalog: set<string>): string -> bool
  {
    t => t in catalog
  }

  /** Go's `categoryMap[tag]`: false for an absent key. */
  function InMap(categoryMap: map<string, bool>): string -> bool
  {
    t => t in categoryMap && categoryMap[t]
  }

  /** Level 2: the AI tags that are categories (exact, case-sensitive), or
      the single default tag when none is. */
  function Level2(aiTags: seq<string>, catalog: set<string>): (r: seq<string>)
    ensures r != []
    ensures (forall t :: t in aiTags ==> t !in catalog) ==> r == [DefaultTag]
    ensures (exists t :: t in aiTags && t in catalog) ==>
      && IsSubsequence(r, aiTags)
      && (forall t :: t in r <==> t in aiTags && t in catalog)
  {
    var filtered := Filter(aiTags, InCatalog(catalog));
    FilterEmptyIff(aiTags, InCatalog(catalog));
    FilterIsSubsequence(aiTags, InCatalog(catalog));
    if filtered == [] then [DefaultTag] else filtered
  }

  /** When some AI tag is a category, level 2 holds every AI tag that is a
      category exactly as often as the AI suggested it, and nothing else. */
  lemma Level2Multiplicity(aiTags: seq<string>, catalog: set<string>, t: string)
    requires exists u :: u in aiTags && u in catalog
    ensures multiset(Level2(aiTags, catalog))[t] == if t in catalog then multiset(aiTags)[t] else 0
  {
    FilterEmptyIff(aiTags, InCatalog(catalog));
    FilterMultiplicity(aiTags, InCatalog(catalog), t);
  }

  /** The structured tag map. */
  function TagMap(ownerId: string, level2: seq<string>, level3: seq<string>): map<string, seq<string>>
  {
    map["level1" := [ownerId], "level2" := level2, "level3" := level3]
  }

  /** What `TagTweetByContent` returns, given what the category read and the
      AI service answer. The result is all or nothing: a tweet whose only
      set field is the tag map, or the first error met. */
  function Classify(req: Tweet, categoryReply: Result<seq<string>>, aiReply: string -> Result<seq<string>>)
    : (r: Result<Tweet>)
    ensures req.content == "" ==> r == Err(EmptyContent)
    ensures r.Ok? <==> req.content != "" && categoryReply.Ok? && aiReply(req.content).Ok?
    ensures r.Ok? ==>
      && r.value.tags.Keys == {"level1", "level2", "level3"}
      && r.value.tags["level1"] == [req.owner.id]
      && r.value.tags["level2"] == Level2(aiReply(req.content).value, Catalog(categoryReply.value))
      && r.value.tags["level2"] != []
      && r.value.tags["level3"] == Hashtags.FindAll(req.content)
    ensures r.Ok? ==> r.value.id == "" && r.value.content == "" && r.value.owner == Owner("")
  {
    if req.content == "" then Err(EmptyContent)
    else match categoryReply
      case Err(e) => Err(CategoriesPrefix + e)
      case Ok(categories) =>
        match aiReply(req.content)
        case Err(e) => Err(AIPrefix + e)
        case Ok(aiTags) =>
          Ok(Tweet("", "", Owner(""),
                   TagMap(req.owner.id, Level2(aiTags, Catalog(categories)), Hashtags.FindAll(req.content))))
  }

  /** The failures keep the source's messages, wrapping the collaborator's
      error text. */
  lemma ClassifyErrors(req: Tweet, categoryReply: Result<seq<string>>, aiReply: string -> Result<seq<string>>)
    requires req.content != ""
    ensures categoryReply.Err? ==> Classify(req, categoryReply, aiReply) == Err(CategoriesPrefix + categoryReply.msg)
    ensures categoryReply.Ok? && aiReply(req.content).Err? ==>
      Classify(req, categoryReply, aiReply) == Err(AIPrefix + aiReply(req.content).msg)
  {
  }

  /** Builds the lookup map of lines 238-241: every category maps to true. */
  method BuildCategoryMap(categories: seq<string>) returns (categoryMap: map<string, bool>)
    ensures forall c :: c in categoryMap <==> c in categories
    ensures forall c :: c in categoryMap ==> categoryMap[c]
  {
    categoryMap := map[];
    for i := 0 to |categories|
      invariant forall c :: c in categoryMap <==> c in categories[..i]
      invariant forall c :: c in categoryMap ==> categoryMap[c]
    {
      categoryMap := categoryMap[categories[i] := true];
    }
    assert categories[..|categories|] == categories;
  }

  /** The filter loop of lines 250-255. */
  method FilterByCategory(aiTags: seq<string>, categoryMap: map<string, bool>) returns (filtered: seq<string>)
    ensures filtered == Filter(aiTags, InMap(categoryMap))
  {
    filtered := [];
    for i := 0 to |aiTags|
      invariant filtered == Filter(aiTags[..i], InMap(categoryMap))
    {
      var tag := aiTags[i];
      FilterSnoc(aiTags[..i], tag, InMap(categoryMap));
      assert aiTags[..i + 1] == aiTags[..i] + [tag];
      if tag in categoryMap && categoryMap[tag] {
        filtered := filtered + [tag];
      }
    }
    assert aiTags[..|aiTags|] == aiTags;
  }

  /** The fusion engine. The empty-text check comes before any call; the
      category read comes before the AI call, and its failure means the AI
      is never asked. */
  method TagTweetByContent(backend: Oracles.Backend, req: Tweet) returns (res: Result<Tweet>)
    modifies backend
    ensures res == Classify(req, backend.categoryReply, backend.aiReply)
    ensures req.content == "" ==> backend.calls == old(backend.calls)
    ensures req.content != "" && backend.categoryReply.Err? ==>
      backend.calls == old(backend.calls) + [Oracles.FetchCategories]
    ensures req.content != "" && backend.categoryReply.Ok? ==>
      backend.calls == old(backend.calls) + [Oracles.FetchCategories, Oracles.AskAI(req.content)]
  {
    if req.content == "" {
      return Err(EmptyContent);
    }

    var level3Tags := Hashtags.ExtractHashtags(req.content);

    var categories := backend.GetCategoriesFromDB();
    if categories.Err? {
      return Err(CategoriesPrefix + categories.msg);
    }

    var categoryMap := BuildCategoryMap(categories.value);

    var level2Tags := backend.GetTagsFromAI(req.content);
    if level2Tags.Err? {
      return Err(AIPrefix + level2Tags.msg);
    }

    var filteredLevel2Tags := FilterByCategory(level2Tags.value, categoryMap);
    FilterExtensional(level2Tags.value, InMap(categoryMap), InCatalog(Catalog(categories.value)));
    if |filteredLevel2Tags| == 0 {
      filteredLevel2Tags := [DefaultTag];
    }

    var tags := map["level1" := [req.owner.id], "level2" := filteredLevel2Tags, "level3" := level3Tags];
    return Ok(Tweet("", "", Owner(""), tags));
  }
}
