# Wantumeni weekly post generator — hashtag and caption model

A Dafny model of the text logic in `weekly_post_generator.py`. This is the
Streamlit page a music producer uses to write weekly social-media posts.
From a few track fields, the page:

- derives a **sample tag** from the sample title and an **artist tag** from
  the sample artist;
- appends them to the fixed **core tags** and the user's **rotating** and
  **trendy** selections, giving the **final tags**;
- renders the final tags in one of three **format modes**: `With #`,
  `Without #` and `Comma-separated`;
- fills four **caption templates** (Sunday Meta/TikTok/Shorts, Sunday
  YouTube, Wednesday Meta/TikTok, Wednesday YouTube) and a
  **copy/paste tag block**.

Everything is pure, so everything is modelled as functions with lemmas:

- `text.dfy`, module `Text`: the Python string operations the page uses.
  These are `replace(c, "")`, ASCII `lower()`, the `[a-zA-Z0-9]` filter and
  `join`. The module also has `split` and substring search, which the
  round-trip lemmas use.
- `hashtags.dfy`, module `Hashtags`: the tag constants, the sample and
  artist tags, the final tag list, the format modes and the copy/paste
  block.
- `captions.dfy`, module `Captions`: each f-string template as a sequence
  of literal pieces and replacement fields. Rendering it is concatenation.
  The module also holds the four captions and `Compose`, which is one press
  of "Generate Posts".

Widget values are function parameters: the track fields, the two selection
lists and the format option string.

Points of the code that shape the model:

- **Sample tag.** The sample title is not slugged. Line 37 applies
  `re.sub(r'\\s+', '', …)`. As a raw string, that pattern is an escaped
  backslash followed by `s+`. It removes runs of a backslash and one or
  more letters `s`, and it keeps spaces and punctuation. So "Think Twice"
  gives `#think twice`, and a blank title gives `#` followed by its blanks.
- **Tag order.** The final list is core, rotating, trendy, then the sample
  tag and then the artist tag (line 42).
- **Empty tags.** Empty derived tags are kept as elements. They are not
  dropped before joining, so an empty last tag leaves a trailing separator.
  Joining two or more empty tags does not give the empty string.
- **Stripping `#`.** Both modes without `#` remove every `#` in a tag,
  wherever it stands (`tag.replace("#", "")`).
- **Format option.** The option is a string. Any value other than
  `Without #` or `Comma-separated` takes the space-joined branch that keeps
  the `#`.
- **One tag set for all platforms.** The same tag text goes into all four
  captions; the code keeps no per-platform tag suffixes.

## Model

| member | source | states |
|---|---|---|
| `Text.LowerAll` | weekly_post_generator.py:37 | `lower()` on ASCII: same length, each character mapped by ASCII lower-casing |
| `Text.Without` | weekly_post_generator.py:38 | `replace(c, "")`: the result holds no `c` and is no longer than the input |
| `Text.WithoutCounts` | weekly_post_generator.py:38 | `replace(c, "")` keeps the number of occurrences of every other character |
| `Text.WithoutIdempotent` | weekly_post_generator.py:45 | removing a character twice is the same as removing it once |
| `Text.KeepAlnum` | weekly_post_generator.py:38 | `re.sub(r'[^a-zA-Z0-9]', '', s)` leaves only characters of `[a-zA-Z0-9]` |
| `Text.KeepAlnumCounts` | weekly_post_generator.py:38 | the filter keeps every ASCII letter and digit, with its number of occurrences |
| `Text.KeepAlnumEmptyIff` | weekly_post_generator.py:38 | the filter gives the empty string exactly when the input has no ASCII letter or digit |
| `Text.KeepAlnumOfAlnum` | weekly_post_generator.py:38 | text made only of letters and digits passes the filter unchanged |
| `Text.KeepAlnumWithout` | weekly_post_generator.py:38 | removing spaces before the filter does not change its result |
| `Text.Join` | weekly_post_generator.py:47-49 | `sep.join(items)` starts with the first item and holds no character that is absent from the items and the separator |
| `Text.JoinEndsWithSeparator` | weekly_post_generator.py:49 | an empty last item is not skipped: the joined text ends with the separator |
| `Text.SplitJoin` | weekly_post_generator.py:47-49 | for a separator of one character or two different ones, splitting the joined text gives back the items when none contains the separator |
| `Hashtags.RemoveBackslashRuns` | weekly_post_generator.py:37 | `re.sub(r'\\s+', '', s)`: no backslash followed by `s` remains, the text does not grow, and the result starts with `s` only if the input did |
| `Hashtags.RemoveBackslashRunsCounts` | weekly_post_generator.py:37 | the substitution removes only backslashes and letters `s`: every other character, whitespace included, keeps its number of occurrences |
| `Hashtags.RemoveBackslashRunsExample` | weekly_post_generator.py:37 | on `a\ssb` the match and its whole run of `s` go and the text around it stays: the result is `ab` |
| `Hashtags.RemoveBackslashRunsKeepsLoneBackslash` | weekly_post_generator.py:37 | on `x\\ss y` the backslash before the match stays, and so does the space after it: the result is `x\ y` |
| `Hashtags.RemoveBackslashRunsNoMatch` | weekly_post_generator.py:37 | text with no match of the pattern is left unchanged |
| `Hashtags.RemoveBackslashRunsAppend` | weekly_post_generator.py:37 | no match spans a cut made in front of a character other than `s`: the two sides are substituted on their own and their results are concatenated in order |
| `Hashtags.RemoveBackslashRunsMatch` | weekly_post_generator.py:37 | a backslash followed by one or more letters `s` and nothing else becomes the empty string |
| `Hashtags.RemoveBackslashRunsAroundMatch` | weekly_post_generator.py:37 | a whole match followed by a character other than `s` is removed and nothing else is: the text before and after it is substituted on its own and kept in order, letters `s` included |
| `Hashtags.RemoveBackslashRunsIdempotent` | weekly_post_generator.py:37 | applying the substitution twice is the same as applying it once |
| `Hashtags.NoBackslashKept` | weekly_post_generator.py:37 | text without a backslash, whitespace included, survives the substitution |
| `Hashtags.SampleTag` | weekly_post_generator.py:37 | the sample tag is empty exactly when the title is empty; otherwise it starts with `#` and holds no backslash followed by `s` after it |
| `Hashtags.SampleTagCounts` | weekly_post_generator.py:37 | after the `#`, the sample tag keeps every character of the lower-cased title other than backslashes and letters `s`, with its number of occurrences |
| `Hashtags.SampleTagAppend` | weekly_post_generator.py:37 | cutting a non-empty title in front of a character that does not lower-case to `s` cuts the tag there: the tag is `#`, then each side lower-cased and substituted on its own, in order |
| `Hashtags.SampleTagAroundMatch` | weekly_post_generator.py:37 | a backslash followed by letters `s` or `S` up to a character that does not lower-case to `s` is removed from the tag and nothing else is |
| `Hashtags.SampleTagSisters` | weekly_post_generator.py:37 | `Sisters\s` gives `#sisters`: only the trailing match goes, the letters `s` of the word stay |
| `Hashtags.SampleTagKeepsWhitespace` | weekly_post_generator.py:37 | for a title without backslashes the tag is `#` plus the lower-cased title, and every space stays in place |
| `Hashtags.SampleTagThinkTwice` | weekly_post_generator.py:37 | "Think Twice" gives `#think twice`, not `#thinktwice` |
| `Hashtags.SampleTagBlank` | weekly_post_generator.py:37 | a title of three blanks gives `#` and three blanks, not an empty tag |
| `Hashtags.ArtistCleaned` | weekly_post_generator.py:38 | the cleaned artist holds only ASCII letters and digits |
| `Hashtags.ArtistTag` | weekly_post_generator.py:39 | a non-empty artist tag is `#` followed only by characters of `[a-z0-9]` |
| `Hashtags.ArtistCleanedIsAlnumFilter` | weekly_post_generator.py:38 | the cleaned artist is the artist's ASCII letters and digits in their original order |
| `Hashtags.ArtistTagCharacterized` | weekly_post_generator.py:38-39 | the artist tag is empty exactly when the artist has no ASCII letter or digit; otherwise it is `#` and those characters, lower-cased |
| `Hashtags.ArtistCleanedIdempotent` | weekly_post_generator.py:38-39 | cleaning a cleaned artist changes nothing, and it gives the same tag |
| `Hashtags.ArtistTagIdempotent` | weekly_post_generator.py:38-39 | feeding the tag's text after `#` back in gives the same tag |
| `Hashtags.ArtistTagJDilla` | weekly_post_generator.py:38-39 | "J Dilla" gives `#jdilla` |
| `Hashtags.FinalTags` | weekly_post_generator.py:42 | the final list has 5 + rotating + trendy + 2 tags: the core tags, the selections in order, then the sample tag before the artist tag, even when they are empty |
| `Hashtags.CoreTagsAreSlugs` | weekly_post_generator.py:18 | each core tag is `#` followed by `[a-z0-9]` characters |
| `Hashtags.RotatingOptionsAreSlugs` | weekly_post_generator.py:21-24 | each rotating option is `#` followed by `[a-z0-9]` characters |
| `Hashtags.TrendyOptionsAreSlugs` | weekly_post_generator.py:28-30 | each trendy option is `#` followed by `[a-z0-9]` characters |
| `Hashtags.FinalTagsWellFormed` | weekly_post_generator.py:25-42 | with selections the widgets allow, the list has at most 5 + 10 + trendy + 2 tags, every tag but the sample tag is empty or a slug tag, and the sample tag is empty or starts with `#` |
| `Hashtags.StripHash` | weekly_post_generator.py:45 | `tag.replace("#", "")` holds no `#` and keeps every other character's count |
| `Hashtags.StripAll` | weekly_post_generator.py:45 | the list comprehension gives one stripped tag per tag, in order, none holding `#` |
| `Hashtags.StripHashProperties` | weekly_post_generator.py:45-47 | stripping is idempotent, and on a slug tag it only drops the leading `#` |
| `Hashtags.StripCoreTags` | weekly_post_generator.py:18-45 | stripping the core tags gives them without their `#` |
| `Hashtags.Display` | weekly_post_generator.py:44-49 | the result is a list exactly in the "Without #" mode, with one tag per final tag and no `#`; "Comma-separated" gives text without `#`; any other option gives text that starts with the first tag |
| `Hashtags.DisplayWithoutHash` | weekly_post_generator.py:44-45 | "Without #" gives a list with one rendered tag per final tag, each the stripped tag and none holding `#` |
| `Hashtags.DisplayCommaSeparated` | weekly_post_generator.py:46-47 | "Comma-separated" gives text without `#` that splits at `", "` back into the stripped tags when there is at least one tag and none contains `", "` |
| `Hashtags.DisplayWithHash` | weekly_post_generator.py:48-49 | any other option gives the tags joined by one space, which splits back into the tags when there is at least one tag and none contains a space |
| `Hashtags.DisplayEndsWithSeparator` | weekly_post_generator.py:46-49 | in both string modes, an empty last tag leaves the text ending with the separator |
| `Hashtags.EmptyArtistTagLeavesSeparator` | weekly_post_generator.py:39-49 | with an empty artist tag, the joined tag text ends with the separator |
| `Hashtags.CopyPaste` | weekly_post_generator.py:141 | the copy/paste block is the display string itself, or starts with the first listed tag |
| `Hashtags.CopyPasteHashFree` | weekly_post_generator.py:141 | in both modes without `#`, the copy/paste block holds no `#`; without `#` it is the stripped tags joined by a space |
| `Captions.OrElse` | weekly_post_generator.py:117-118 | `url or '[URL]'` is the URL when it is non-empty and the placeholder when it is empty |
| `Captions.RenderConcat` | weekly_post_generator.py:56-126 | evaluating an f-string is concatenation: the text of two consecutive parts is the first part's text followed by the second's |
| `Captions.RenderShowsRun` | weekly_post_generator.py:56-126 | every run of consecutive pieces appears, rendered, in the rendered text |
| `Captions.RenderShowsField` | weekly_post_generator.py:56-126 | every field an f-string uses appears, as its value, in the rendered text |
| `Captions.RenderUsesOnlyItsFields` | weekly_post_generator.py:56-126 | the rendered text depends only on the fields the f-string uses |
| `Captions.SundayMeta` | weekly_post_generator.py:56-69 | the caption shows the track title, sample artist, sample title, sample year, tag text and Linktree link |
| `Captions.SundayYouTube` | weekly_post_generator.py:72-90 | the caption shows the track title, sample artist, sample title, sample year, tag text and Linktree link |
| `Captions.WednesdayMeta` | weekly_post_generator.py:93-106 | the caption shows the track title, sample artist, sample title, sample year, tag text and Linktree link |
| `Captions.WednesdayYouTube` | weekly_post_generator.py:109-126 | the caption shows the track fields, and its URL lines show each URL verbatim when given and `[URL]` when empty |
| `Captions.OtherTemplatesIgnoreUrls` | weekly_post_generator.py:56-106 | the other three captions are the same for any URLs |
| `Captions.TagField` | weekly_post_generator.py:64 | the `{display_tags}` field prints the display string itself in the two string modes |
| `Captions.Compose` | weekly_post_generator.py:42-141 | one generation: every caption shows the track and the tag field, and outside "Without #" that field is exactly the copy/paste block |
| `Captions.ComposeUrlsOnlyInWednesdayYouTube` | weekly_post_generator.py:56-126 | changing only the URLs changes only the Wednesday YouTube caption |
| `Captions.ComposeWithHashTags` | weekly_post_generator.py:48-141 | with `#`, the copy/paste block is the final tags joined by a space and splits back into them when no tag contains a space |
| `Captions.ComposeHashFreeTags` | weekly_post_generator.py:44-141 | without `#` or comma-separated, the copy/paste block holds no `#` |

## Left out

- Streamlit UI (lines 5-34, 54 and 128-141): page setup, inputs, the button and the display calls. The widget values are parameters. The ten-tag rotating cap (line 25) is the predicate `Hashtags.ValidSelection`. Only `Hashtags.FinalTagsWellFormed` requires it.
- Python's printed form of a list. In the "Without #" mode the templates print the list object itself (lines 45, 64, 89, 104, 125). The model takes that printed form as the caller-supplied function `listRepr`.
- Unicode case mapping. `lower()` is modelled on ASCII letters only. This is exact for the artist tag, which holds only ASCII letters and digits before lower-casing. For a sample title with non-ASCII letters, the model keeps them unchanged, where Python would lower-case them.
- General regular-expression semantics. Only the two patterns the page uses are modelled, as character-level functions.
- Text outside the core file. The unused `date` import (line 2) is not modelled. This file has no post log, analytics log, weekly digest, CSV storage or charts.
- The sample-tag expression puts a backslash inside an f-string replacement field (line 37). The model assumes an interpreter that accepts this (Python 3.12 or later).
