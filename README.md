# Asset bot: the `/asset` slash-command handler

The asset bot answers a chat slash command such as `/asset John Smith`. Its
one piece of logic is the handler `asset_lookup`. The handler takes the
`text` form field and strips and lower-cases it. It then looks the result up
in a fixed in-memory table (`asset_database`) that maps a lower-case person
name to a record of string fields. If the entry is missing or empty, it
answers with a private (`ephemeral`) message that names the query.
Otherwise it answers to the whole channel (`in_channel`) with one `section`
block. That block's `mrkdwn` text shows the title-cased name, the laptop and
the serial number.

The model is pure, like the handler: Python's string builtins, the table and
the handler are Dafny functions over immutable values. The lemmas state what
the handler promises.

- `wrappers.dfy`, module `Wrappers`: `Option`, the value of a form field or of
  `dict.get`.
- `pystr.dfy`, module `PyStr`: ASCII versions of `str.strip()`,
  `str.lower()` and `str.title()`. Stripping is proved equal to a
  slice-wise reference definition. Title-casing is defined position by
  position and proved equal to CPython's character-by-character loop.
- `asset_bot.dfy`, module `AssetBot`: the payload datatypes, the
  `asset_database` constant, the handler's query normalisation `Normalize`
  (strip, then lower-case), the handler `AssetLookup`, and their lemmas,
  including the worked examples on the table's own entries.

The handler reads the table only through `.get`, and Dafny functions cannot
change their arguments. So "the lookup never modifies the table" holds by
construction and needs no lemma.

## Model

| member | source | states |
|---|---|---|
| `PyStr.LowerChar` | asset_bot.py:32 | lower-casing a character leaves no upper-case letter, keeps whether it is a letter or whitespace, and changes nothing that is not upper case |
| `PyStr.UpperChar` | asset_bot.py:49 | upper-casing a character leaves no lower-case letter, keeps whether it is a letter or whitespace, and changes nothing that is not lower case |
| `PyStr.LeadingSpaces` | asset_bot.py:32 | the count of leading characters `str.strip()` skips covers only whitespace and stops at the first non-whitespace character |
| `PyStr.TrailingSpaces` | asset_bot.py:32 | the count of trailing characters `str.strip()` drops covers only whitespace and stops at the last non-whitespace character |
| `PyStr.Strip` | asset_bot.py:32 | `str.strip()` yields a string that neither starts nor ends with whitespace |
| `PyStr.StripIsStrippedFrom` | asset_bot.py:32 | `Strip(s)` is a slice of `s` with only whitespace outside it and none at its ends |
| `PyStr.StripSlice` | asset_bot.py:32 | `Strip(s)` is `s[i..j]` for bounds with only whitespace outside them and none at the slice's ends |
| `PyStr.StripBoundsUnique` | asset_bot.py:32 | two slice bounds that both meet the stripping conditions are both empty or equal |
| `PyStr.StrippedFromIsUnique` | asset_bot.py:32 | at most one string meets the reference definition of stripping |
| `PyStr.StripCharacterization` | asset_bot.py:32 | a string meets the reference definition of stripping if and only if it is `Strip(s)` |
| `PyStr.StripAllSpace` | asset_bot.py:32 | an all-whitespace string strips to `''` |
| `PyStr.StripTrimmed` | asset_bot.py:32 | stripping a trimmed string changes nothing |
| `PyStr.LeadingSpacesToLower` | asset_bot.py:32 | lower-casing does not change how much leading whitespace there is |
| `PyStr.TrailingSpacesToLower` | asset_bot.py:32 | lower-casing does not change how much trailing whitespace there is |
| `PyStr.TrimLeftToLower` | asset_bot.py:32 | removing leading whitespace commutes with lower-casing |
| `PyStr.TrimRightToLower` | asset_bot.py:32 | removing trailing whitespace commutes with lower-casing |
| `PyStr.StripToLower` | asset_bot.py:32 | stripping commutes with lower-casing |
| `PyStr.ToLowerIdempotent` | asset_bot.py:32 | lower-casing twice equals lower-casing once |
| `PyStr.ToLowerNoUpper` | asset_bot.py:32 | a string is its own lower-case form if and only if it has no upper-case letter |
| `PyStr.TitleFrom` | asset_bot.py:49 | each position is lower-cased when the previous character (or the initial flag) is a letter, otherwise upper-cased, as CPython's title loop does |
| `PyStr.TitleLoop` | asset_bot.py:49 | the character-by-character title loop, started with the flag clear, computes `Title`: a letter at the start or after a non-letter is upper-cased, every other character is lower-cased |
| `PyStr.TitleAt` | asset_bot.py:49 | title-casing keeps each character's whitespace status and its lower-case form |
| `PyStr.TitleToLower` | asset_bot.py:49 | lower-casing a title-cased string gives the lower-cased input |
| `PyStr.TitleIgnoresCase` | asset_bot.py:49 | title-casing ignores the case of its input |
| `PyStr.TitleTrimmed` | asset_bot.py:49 | title-casing a trimmed string leaves it trimmed |
| `PyStr.ToLowerTrimmed` | asset_bot.py:32 | lower-casing a trimmed string leaves it trimmed |
| `PyStr.StrippedFromPadded` | asset_bot.py:32 | adding whitespace around a string keeps its stripped form |
| `AssetBot.Normalize` | asset_bot.py:32 | the normalised query is trimmed and has no upper-case letter |
| `AssetBot.NormalizeIdempotent` | asset_bot.py:32 | normalising twice equals normalising once |
| `AssetBot.NormalizeCharacterization` | asset_bot.py:32 | `r` is the normalisation of `s` if and only if `r` has no upper-case letter and equals, up to case, a string that meets the reference definition of stripping `s` |
| `AssetBot.NormalizeIgnoresCase` | asset_bot.py:32 | normalising the lower-cased input gives the same result as normalising the input |
| `AssetBot.NormalizeIgnoresSurroundingSpace` | asset_bot.py:32 | whitespace added on either side of the input does not change its normalisation |
| `AssetBot.NormalizeBlank` | asset_bot.py:32 | an empty or whitespace-only input normalises to `''` |
| `AssetBot.NormalizeTitle` | asset_bot.py:32-49 | normalising the title-cased form of a normalised name gives the name back |
| `AssetBot.Asset` | asset_bot.py:10-21 | a record of the table holds its `laptop` and `serial` values under those names and is not empty |
| `AssetBot.Get` | asset_bot.py:36 | `dict.get` returns an entry exactly for a key in the table, and that entry is the key's record |
| `AssetBot.Query` | asset_bot.py:31-32 | the query taken from the `text` field (`''` if absent) is trimmed and has no upper-case letter |
| `AssetBot.AssetLookup` | asset_bot.py:30-57 | the reply is ephemeral exactly when the normalised query is not a key or its record is empty; the ephemeral reply's text is the not-found message naming the normalised query; the match reply is `in_channel`, holds exactly one `section` block with a `mrkdwn` text, and that text is built from the title-cased query and the record's `laptop` and `serial` |
| `AssetBot.InvariantRenderable` | asset_bot.py:38-49 | under the table invariant, the match branch never indexes a missing `laptop` or `serial` |
| `AssetBot.AssetDatabaseInvariant` | asset_bot.py:9-22 | every key of the shipped table is non-empty, trimmed and lower-case, and every record has `laptop` and `serial` |
| `AssetBot.KeyWellFormed` | asset_bot.py:10-16 | a non-empty key of lower-case letters and inner spaces is trimmed and has no upper-case letter |
| `AssetBot.NormalizedName` | asset_bot.py:9-36 | a trimmed lower-case table key is its own normalisation |
| `AssetBot.CaseIgnored` | asset_bot.py:32-36 | the case of the query never changes the reply |
| `AssetBot.SurroundingSpaceIgnored` | asset_bot.py:32-36 | whitespace around the query never changes the reply |
| `AssetBot.BlankQueryNotFound` | asset_bot.py:31-42 | an absent, empty or whitespace-only query always gets the not-found reply for `''` |
| `AssetBot.EveryKeyReachable` | asset_bot.py:36-52 | typing a table key finds that key's record, whenever the record is non-empty |
| `AssetBot.DisplayedNameRoundTrip` | asset_bot.py:32-49 | the name shown in a match, typed back as a query, gives the same reply |
| `AssetBot.OnlyLaptopAndSerialShown` | asset_bot.py:44-52 | the reply depends only on which keys have a non-empty record and on their `laptop` and `serial`; `monitor` and `last_audit` never show |
| `AssetBot.AssetTextLayout` | asset_bot.py:49 | the match text holds, in order, the heading with the name, then the laptop, then the serial wrapped in backticks at the end |
| `AssetBot.NotFoundTextLayout` | asset_bot.py:41 | the not-found text holds the query between the fixed opening and the closing `'.` |
| `AssetBot.PaddedUpperCaseMatches` | asset_bot.py:9-57 | `"  JOHN SMITH "` finds John Smith's record and shows "John Smith", "Dell XPS 15" and "JS-554-Y" |
| `AssetBot.MatchOfKey` | asset_bot.py:36-57 | a query that normalises to a key with `laptop` and `serial` gets the one-block `in_channel` reply for that record |
| `AssetBot.PaddedUpperCaseNormalizes` | asset_bot.py:32 | `"  JOHN SMITH "` normalises to `john smith` |
| `AssetBot.PaddingDropped` | asset_bot.py:32 | the padding of `"  JOHN SMITH "` does not change its normalisation |
| `AssetBot.UpperCaseDropped` | asset_bot.py:32 | `"JOHN SMITH"` normalises to `john smith` |
| `AssetBot.StripJohnSmith` | asset_bot.py:32 | `"JOHN SMITH"` strips to itself |
| `AssetBot.LowerJohnSmith` | asset_bot.py:32 | `"JOHN SMITH"` lower-cases to `john smith` |
| `AssetBot.TitleJohnSmith` | asset_bot.py:49 | `john smith` title-cases to `John Smith` |
| `AssetBot.FirstNameAloneNotFound` | asset_bot.py:32-42 | the prefix `"john"` does not match `john smith`; it gets the not-found reply |

## Left out

- Flask plumbing (app construction, routing, `request.form` decoding, `jsonify`): the form field is an `Option<string>` parameter and the payload is the `Response` datatype.
- The `home` health-check route, the debug `print` and the `app.run` start-up: I/O and process set-up with no logic.
- Unicode semantics of `str.strip`, `str.lower` and `str.title`: the model covers ASCII only. It treats whitespace as `str.isspace()` does on ASCII (tab through carriage return, 0x1C-0x1F, space) and the cased characters as the ASCII letters. Any other character is kept unchanged and counts as neither whitespace nor cased.
- The messages' wording and emoji are reproduced as constants; only the backticks around the serial and the closing `'.` of the not-found text are stated by a contract.
- `AssetLookup`: a truthy record that lacks `laptop` or `serial` would raise `KeyError` and give an HTTP 500 error. The model does not represent that failure. Its precondition `Renderable` rules out only this case, for the looked-up entry. `InvariantRenderable` and `AssetDatabaseInvariant` show that the shipped table never reaches it.
- PaddedUpperCaseMatches: states the expected section text as `AssetText` of the three values, not as one literal string.
