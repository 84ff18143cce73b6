# MiniTwitter post tagging, modelled in Dafny

This project models how the MiniTwitter backend tags a post. `TagRepo.TagTweetByContent` turns the post's text into a map with exactly three levels:

- `level1` is the post owner's id.
- `level2` holds the AI-suggested tags that are also names in the category table. When none are, it is the sentinel `"default_tag"`.
- `level3` holds the post's hashtags, in the order the regular expression `#\w+(-\w+)*` finds them.

It also models how `gemini.AskFromGemeni` builds its prompt and reads the AI service's answer, and how `TagRepo.GetSingle` picks its lookup key.

Modules (`Wrappers` and `Seqs` are shared helpers; the others follow the source's components):

- `Wrappers`: `Option`, and `Result`, whose `Err` carries a Go error's text.
- `Seqs`: the order-preserving filter that both source loops compute; subsequences; Go's `strings.Contains`.
- `Hashtags`: a hand-written left-to-right scanner that takes the place of the `regexp` call, and the functions that specify it.
- `Oracles`: class `Backend`, which stands for the category table and the AI suggestion service. Its replies are fixed when it is created, and it logs every call.
- `Gemini`: the decoded-answer datatypes (`Response`, `Candidate`, `CandidateContent`, `Part`), the answer matcher, the prompt, and `AskFromGemeni` with the HTTP round trip passed in as a function.
- `TagRepo`: the `GetSingle` selector, the category map and filter loops, the specification function `Classify`, and the method `TagTweetByContent`.
- `Scenarios`: worked examples, proved against the model.

The scanner follows RE2's leftmost-first, greedy semantics for this pattern. A match starts at every `#` that is followed by an ASCII word character (`[0-9A-Za-z_]`). It then takes the whole run of word characters, and after that every `-` that is followed by another word run. Scanning resumes right after each match.

`Hashtags.FindAllCharacterised` proves what the matches are:

- Each match is the text of a range of the post, and the ranges are ordered and do not overlap.
- Each match belongs to the language `#\w+(-\w+)*`, and no longer match starts at the same position.
- A range starts at position `j` exactly when `j` holds a `#` followed by a word character.

In the source, the returned tweet carries only its tag map (internal/usecase/repo/tag.go:270-272). Its id, content and owner are empty, and `Classify` states this. The update handler (internal/controller/http/v1/handler/tweet.go:207) passes this value unchanged to `TweetRepo.Update`, so the post it hands on has an empty id, content and owner. `TweetRepo.Update` is not part of this model. The model keeps this behaviour and does not fix it.

Behaviours of the code worth noting:

- A Gemini answer with no candidates, or whose first candidate has no parts, is an error (`"no valid response from AI"`, pkg/gemini/connection.go:106).
- The category list is a slice. The set used for filtering (`TagRepo.Catalog`) is built from it.
- `AskFromGemeni` sends the content unsanitised, with no timeout and no comma splitting. Whatever `gemini.GetTagsFromAI` does is outside the model.

## Model

| member | source | states |
|---|---|---|
| `Seqs.Filter` | internal/usecase/repo/tag.go:250-255 | a filtered sequence holds exactly the input elements that pass the test, and is no longer than the input |
| `Seqs.FilterSnoc` | internal/usecase/repo/tag.go:251-254 | one loop step: filtering one more element appends it exactly when it passes the test |
| `Seqs.FilterIsSubsequence` | internal/usecase/repo/tag.go:250-255 | the filter keeps input order: its result is a subsequence of its input |
| `Seqs.FilterMultiplicity` | pkg/gemini/connection.go:98-101 | every kept value occurs as often as in the input; a dropped value does not occur at all |
| `Seqs.FilterEmptyIff` | internal/usecase/repo/tag.go:258 | the filter is empty exactly when no input element passes the test |
| `Seqs.SubsequenceOfTail` | internal/usecase/repo/tag.go:250-255 | a subsequence of a sequence's tail is a subsequence of the sequence |
| `Seqs.SubsequenceDropHead` | internal/usecase/repo/tag.go:250-255 | dropping the first element of a subsequence keeps it a subsequence |
| `Seqs.ContainsIff` | pkg/gemini/connection.go:99 | `strings.Contains(s, sub)` holds exactly when `sub` occurs in `s` at some offset |
| `Hashtags.WordEnd` | internal/usecase/repo/tag.go:228 | a greedy `\w+` stops at the first non-word character: everything before it is a word character |
| `Hashtags.SegmentsEnd` | internal/usecase/repo/tag.go:228 | a greedy `(-\w+)*` consumes only word characters and dashes, every dash followed by a word character; it ends on a word character, and the match cannot be extended |
| `Hashtags.TagEnd` | internal/usecase/repo/tag.go:228 | a match is at least `#` plus one word character long and stays within the text |
| `Hashtags.SpansFrom` | internal/usecase/repo/tag.go:229 | the match ranges lie within the text, are non-empty, are in left-to-right order and do not overlap |
| `Hashtags.TextsCons` | internal/usecase/repo/tag.go:229 | the texts of a range list are the first range's text followed by the texts of the rest |
| `Hashtags.FindAllFromStep` | internal/usecase/repo/tag.go:229 | after a match, scanning resumes at its end; anywhere else it moves on one character |
| `Hashtags.ScanWord` | internal/usecase/repo/tag.go:228 | the word-run loop stops where `WordEnd` says |
| `Hashtags.ScanTag` | internal/usecase/repo/tag.go:228 | the loop over `-word` segments ends where the greedy match ends |
| `Hashtags.ExtractHashtags` | internal/usecase/repo/tag.go:228-229 | the scanner returns exactly the specified match list `FindAll` |
| `Hashtags.MatchIsMaximalHashtag` | internal/usecase/repo/tag.go:228 | each match is in the language of `#\w+(-\w+)*`, and no longer string starting at the same position is |
| `Hashtags.MatchIsHashtag` | internal/usecase/repo/tag.go:228 | each match is in the language of `#\w+(-\w+)*` |
| `Hashtags.MatchIsMaximal` | internal/usecase/repo/tag.go:228 | no string that extends a match at its end is in that language |
| `Hashtags.InsideMatch` | internal/usecase/repo/tag.go:228 | no `#` occurs inside a match after its first character |
| `Hashtags.EveryTagStartFound` | internal/usecase/repo/tag.go:229 | every `#` followed by a word character, at or after the scan start, starts one of the ranges |
| `Hashtags.SpanStarts` | internal/usecase/repo/tag.go:229 | leftmost-first completeness: a match starts at position j iff j holds `#` followed by a word character |
| `Hashtags.SpansAreMaximalHashtags` | internal/usecase/repo/tag.go:229 | every range the scan yields starts a match and ends where that match ends |
| `Hashtags.FindAllCharacterised` | internal/usecase/repo/tag.go:228-229 | the level-3 list: texts of ordered, non-overlapping ranges, each a maximal hashtag, one per `#` followed by a word character, duplicates kept |
| `Hashtags.SpansSkip` | internal/usecase/repo/tag.go:229 | text without `#` contains no match |
| `Hashtags.WordEndAt` | internal/usecase/repo/tag.go:228 | a word run ends where the word characters stop |
| `Hashtags.FindAllElements` | internal/usecase/repo/tag.go:228-229 | every level-3 tag starts with `#`, has a word character after it, does not end in `-`, and is a substring of the content |
| `Hashtags.FindAll` | internal/usecase/repo/tag.go:229 | defines `re.FindAllString(content, -1)`: the texts of the ranges that the scan from position 0 yields |
| `Oracles.Backend.GetCategoriesFromDB` | internal/usecase/repo/tag.go:192-219 | one read of the category table: returns the table's reply and logs the call |
| `Oracles.Backend.GetTagsFromAI` | internal/usecase/repo/tag.go:244 | one AI request about the given text: returns the service's reply and logs the call |
| `Gemini.Mentions` | pkg/gemini/connection.go:99 | defines the test `strings.Contains(aiResponse, tag[1:])`: the tag is non-empty and its text after the first character occurs in the answer |
| `Gemini.MatchedTags` | pkg/gemini/connection.go:97-102 | defines the matching loop's result: the default tags the answer mentions, in order, duplicates kept |
| `Gemini.MatchAnswer` | pkg/gemini/connection.go:95-106 | no first candidate or no first part: empty list and the error "no valid response from AI"; otherwise no error, and the default tags mentioned in the first part's text, even when that list is empty |
| `Gemini.MatchedTagsMeaning` | pkg/gemini/connection.go:97-103 | matched tags form a subsequence of the default tags; a tag is matched iff the answer contains it without its first character; matched duplicates keep their count |
| `Gemini.MatchedTagIffSubstring` | pkg/gemini/connection.go:99-100 | a default tag is matched iff its text after the first character occurs contiguously in the answer |
| `Gemini.FormatList` | pkg/gemini/connection.go:55 | defines the `%v` rendering of the tag slice: the tags separated by single spaces, inside brackets |
| `Gemini.Prompt` | pkg/gemini/connection.go:55 | the prompt is the fixed head, the content quoted verbatim, the fixed middle, the bracketed tag list and the fixed tail |
| `Gemini.PromptInjective` | pkg/gemini/connection.go:55 | for a given tag list, the prompt determines the content |
| `Gemini.JoinedAt` | pkg/gemini/connection.go:55 | each tag occurs in the space-separated rendering of the list |
| `Gemini.FormatListShowsEveryTag` | pkg/gemini/connection.go:55 | every default tag appears verbatim in the bracketed list the prompt shows |
| `Gemini.AskFromGemeni` | pkg/gemini/connection.go:36-107 | the prompt goes to the service; the answer is read as `MatchAnswer` reads it |
| `TagRepo.GetSingleLookup` | internal/usecase/repo/tag.go:60-67 | looks up by id (`id = ?`) when the id is set, else by slug (`slug = ?`) when the slug is set, else fails with "GetSingle - invalid request"; the lookup key is never empty |
| `TagRepo.Level2` | internal/usecase/repo/tag.go:249-260 | level 2 is never empty; it is `["default_tag"]` when no AI tag is a category; otherwise it is a subsequence of the AI tags holding exactly those that are categories |
| `TagRepo.Level2Multiplicity` | internal/usecase/repo/tag.go:250-255 | with some AI tag in the catalog, each category appears in level 2 as often as the AI suggested it, and a non-category not at all |
| `TagRepo.Classify` | internal/usecase/repo/tag.go:221-273 | empty content is an error; success iff the content is not empty and both collaborators succeed; then keys are exactly level1-3, level1 is the owner, level2 is non-empty and filtered, level3 is the hashtag list; only the tag map is set |
| `TagRepo.ClassifyErrors` | internal/usecase/repo/tag.go:232-247 | a category-read failure and an AI failure abort with their wrapped messages |
| `TagRepo.BuildCategoryMap` | internal/usecase/repo/tag.go:238-241 | the map's keys are exactly the category names, all mapped to true |
| `TagRepo.FilterByCategory` | internal/usecase/repo/tag.go:250-255 | the loop keeps exactly the AI tags the map marks true, in order |
| `TagRepo.TagTweetByContent` | internal/usecase/repo/tag.go:221-273 | returns `Classify`'s result; empty content makes no call; a category failure makes only the read; otherwise the read comes first, then one AI call with the content |
| `Scenarios.PostHashtags` | internal/usecase/repo/tag.go:228-229 | "Great match today #football #world-cup" yields `["#football", "#world-cup"]` |
| `Scenarios.PostClassified` | internal/usecase/repo/tag.go:221-273 | that post by `u1`, with catalog and AI both giving `["Sports"]`, gets the tag map `{level1: [u1], level2: [Sports], level3: [#football, #world-cup]}` |
| `Scenarios.UnknownSuggestionDropped` | internal/usecase/repo/tag.go:250-255 | suggestions `[Sports, Nonsense]` against categories `{Sports, Politics}` give `[Sports]` |
| `Scenarios.NoOverlapGivesDefault` | internal/usecase/repo/tag.go:258-260 | suggestions `[X, Y]` against categories `{Z}` give `["default_tag"]` |

## Left out

- SQL: the query builder, the connection pool, row scanning and RFC 3339 time formatting. This covers `Create`, `GetList`, `Update`, `Delete`, `UpdateField` and the query that `GetSingle` runs. They only pass requests through to storage. `GetSingle` is modelled only up to the condition it adds (`TagRepo.GetSingleLookup`).
- `GetCategoriesFromDB` is an oracle (`Oracles.Backend`), not a query. While the rows are read, only a `rows.Scan` failure is returned as an error (internal/usecase/repo/tag.go:210-213); a failing query build or query is returned at internal/usecase/repo/tag.go:197-205. `rows.Err()` is never checked, so when iteration stops on an error, the rows read so far come back with a nil error (internal/usecase/repo/tag.go:208-218). The fusion engine then filters against a partial or empty catalog, which can give `level2 == ["default_tag"]` without any error. The oracle's `Ok` reply is unconstrained, so the model admits this case; it does not model the row iteration that produces it.
- `gemini.GetTagsFromAI` is an uninterpreted oracle, because its source is not part of this model. Any sanitising, deadline or comma splitting it does is not modelled.
- `Oracles.Backend`: each reply is fixed when the backend is created, and the AI reply depends only on the text. A real service can answer differently each time, but one tagging run asks it only once.
- `context.Context` cancellation and deadlines are left out. They are I/O concerns.
- `AskFromGemeni` I/O is left out: the endpoint URL with its API key, JSON encoding and decoding, the HTTP POST, and the `log.Fatal` exits on transport or decoding errors. Those exits end the process. The model passes the round trip in as the function parameter `generate`.
- Gemini.MatchAnswer: when an answer part exists, it requires every default tag to be non-empty. In Go, `tag[1:]` on `""` panics.
- Gemini.Mentions: strings are sequences of characters, while Go strings are UTF-8 bytes. The two agree when a tag starts with an ASCII character. When a tag starts with a non-ASCII character, Go's `tag[1:]` removes only that character's first byte.
- The hashtag scanner works on characters. Every character in the pattern is ASCII, and UTF-8 continuation bytes are never ASCII, so it finds the same matches as RE2 on the bytes.
- For a post without hashtags, Go stores a nil slice under `level3`, which JSON encodes as `null`. The model stores the empty sequence.
- Errors are modelled by their text. `%w` wrapping also keeps the cause for `errors.Is`/`errors.As`, and that is not modelled.
- Go's `%v` formatting of the tag slice is not modelled as such. `Gemini.FormatList` defines the bracketed, space-separated rendering explicitly.
- The HTTP handlers (internal/controller/http/v1/handler/tweet.go) and the route, RBAC, Swagger and metrics wiring (internal/controller/http/v1/router.go) are left out. They bind requests and map results to status codes, and hold no tagging logic.
