# Portfolio website front end: blog renderer, slugs, carousel and typing effect

This Dafny project models the parts of the portfolio website's React front end that
contain real logic:

- **Blog post renderer** (`BlogDetail.jsx`):
  - `parseMarkdown` is a one-pass, line-by-line block parser for a Markdown subset.
    It handles headings, bullet and numbered lists, fenced code, block quotes, rules and paragraphs.
    Its state is the `inCodeBlock` / `codeBlockContent` / `codeBlockLanguage` / `inList` / `listItems` variables.
  - `processInlineMarkdown` is the inline formatter: six global regex substitutions, for bold, italic, inline code and links.
  - The tag line splits `blog.tags` on commas and trims each tag.
- **Blog manager** (`BlogManager.jsx`):
  - `generateSlug` lower-cases a title, turns every run of characters other than `a-z0-9` into one `-`, and strips leading and trailing dashes.
  - On submit, the user's slug is kept, or generated from the title when the user left it empty.
- **Project carousel** (`ProjectCarousel.jsx`):
  - next and previous slide with wrap-around;
  - the indicator dots;
  - the details modal.
- **Typing effect** (`useTypingEffect.jsx`): a state machine. Each effect firing types one character, pauses, deletes one character, or moves on to the next text.

Modules:

| file | module | content |
|---|---|---|
| `wrappers.dfy` | `Wrappers` | `Option` |
| `text.dfy` | `Text` | JavaScript's `trim`, `split` on one character, `join`, ASCII `toLowerCase` |
| `inline.dfy` | `Inline` | The inline formatter. Each `/d(.+?)d/g` pass is a leftmost, shortest-match scan (`ReplacePairs`). The link pass is `ReplaceLinks`. `Format` chains the six passes in source order. |
| `blog_detail.dfy` | `BlogDetail` | Line classification, the parser state as a value (`Parser`), and one `Step` per line. `Run` and `Render` specify the whole pass. `MarkdownParser` is a class with the source's mutable variables as fields. `ParseMarkdown` is the loop, proved equal to `Render`. Also the tag list. |
| `slug.dfy` | `BlogManager` | `GenerateSlug`, built from the three string passes, and the submitted form |
| `carousel.dfy` | `ProjectCarousel` | Index arithmetic, and the `Carousel` class with `currentIndex` / `selectedProject` |
| `typing.dfy` | `TypingEffect` | `Next`, the one-firing step function. `TypingHook` is a class with the four `useState` variables. |

Characters are modelled as ASCII.
- Whitespace for `trim` and `\s` is space, `\t`, `\n`, `\v`, `\f` and `\r`.
- The regex `.` matches any character except `\n`, `\r`, U+2028 and U+2029.

### Behaviour of the code that is easy to misread
- **Lists:**
  - The code renders every list as `<ul>`, so the model has one `List` block and no separate ordered list.
  - A numbered line that follows pending bullet items joins that list (`!inList || listItems.length === 0` is false there). So `- a` then `1. b` gives one list of two items, not two lists (`BlogDetail.BulletThenNumbered`; `BlogDetail.ItemsMakeOneList` for any run of mixed item lines).
- **Unterminated code fence:** an opening fence with no closing fence drops everything after it (`BlogDetail.UnterminatedCodeDropped`). It does not fall back to paragraphs.
- **Code block content:** a code block carries its lines joined by `\n`, as the `<code>` element does.

### Source functions and their Dafny definitions

| source | definition | properties proved about it |
|---|---|---|
| `processInlineMarkdown` (BlogDetail.jsx:43-59) | `Inline.Format` | `FormatPlain`, `FormatBoldItalic`, `FormatLink`, `FormatNestedEmphasis` |
| one `/d(.+?)d/g` replace (BlogDetail.jsx:45-53) | `Inline.ReplacePairs` | `ShortestCloseSpec`, `MatchAtFront`, `ReplacePairsSkip`, `PairPass` |
| the link replace (BlogDetail.jsx:56) | `Inline.ReplaceLinks` | `LinkFromSpec`, `ReplaceLinksPlain` |
| `line.trim()` | `Text.Trim` | `TrimSpec`, `TrimEmptyIffAllSpace`, `TrimOfTrimmed` |
| `content.split('\n')`, `tags.split(',')` | `Text.Split` | `Split`, `SplitJoin` |
| the classification tests (BlogDetail.jsx:105-173) | `BlogDetail.Classify` | `OrderedItemMatches`, `HeadingLevels`, `HeadingShape`, `BulletLineOf`, `NumberedLineOf`, `ParagraphLineOf` |
| `flushList` (BlogDetail.jsx:61-73) | `BlogDetail.Flush`, method `MarkdownParser.FlushList` | `FlushIdempotent`, `FlushGood` |
| the `forEach` callback (BlogDetail.jsx:75-174) | `BlogDetail.Step`, method `MarkdownParser.ProcessLine` | `StepGood`, `BlankLine`, `ListRun`, `NonItemLineClosesList`, `CodeRun` |
| `parseMarkdown` (BlogDetail.jsx:34-180) | `BlogDetail.Render`, method `BlogDetail.ParseMarkdown` | `RenderBound`, `ItemsMakeOneList`, `CodeBlockVerbatim`, `UnterminatedCodeDropped`, `ExamplePost` |
| the tag line (BlogDetail.jsx:255-259) | `BlogDetail.Tags` | `Tags`, `TagsTrimPieces`, `TagsRoundTrip` |
| `generateSlug` (BlogManager.jsx:45-50) | `BlogManager.GenerateSlug` | `SlugShape`, `SlugLetters`, `SlugFixedPoints`, `SlugIdempotent`, `EmptySlug` |
| `dataToSubmit` (BlogManager.jsx:57-60) | `BlogManager.DataToSubmit` | `DataToSubmit`, `SubmittedSlugEmpty` |
| `nextSlide`, `prevSlide` (ProjectCarousel.jsx:10-16) | `ProjectCarousel.Next`, `Prev`; methods `Carousel.NextSlide`, `PrevSlide` | `PrevNext`, `NextPrev`, `FullTurn` |
| the indicators (ProjectCarousel.jsx:73-81) | `ProjectCarousel.Indicators`, method `Carousel.GoTo` | `OneActive` |
| the effect (useTypingEffect.jsx:9-39) | `TypingEffect.Next`, method `TypingHook.Step` | `StepInv`, `TypeChar`, `StartDeleting`, `DeleteChar`, `NextText`, `Cycle` |

## Model

| member | source | states |
|---|---|---|
| Text.Split | portfolio-website/frontend/src/pages/BlogDetail.jsx:35 | `split` on one character gives one more piece than there are separators, no piece contains the separator, and joining the pieces back gives the input |
| Text.SplitJoin | portfolio-website/frontend/src/pages/BlogDetail.jsx:35 | Splitting a join of separator-free pieces gives the pieces back (the inverse of `Split`'s round trip) |
| Text.TrimSpec | portfolio-website/frontend/src/pages/BlogDetail.jsx:77 | `trim` removes exactly the whitespace at both ends. The result is a contiguous stretch of the input with only whitespace before and after it, and it has no whitespace at either end itself. |
| Text.TrimEmptyIffAllSpace | portfolio-website/frontend/src/pages/BlogDetail.jsx:105 | `line.trim() === ''` holds exactly when the line is all whitespace |
| Text.TrimOfTrimmed | portfolio-website/frontend/src/pages/BlogDetail.jsx:258 | `trim` leaves a string without edge whitespace unchanged |
| Text.LowerString | portfolio-website/frontend/src/pages/admin/managers/BlogManager.jsx:47 | `toLowerCase` maps `A`-`Z` to `a`-`z` character by character and keeps every other character |
| Inline.ShortestCloseSpec | portfolio-website/frontend/src/pages/BlogDetail.jsx:45-53 | The lazy `(.+?)d` match: the span found is non-empty, has no line terminator and is followed by `d`, and no shorter such span is; with no result, no span is followed by `d` |
| Inline.MatchAtFront | portfolio-website/frontend/src/pages/BlogDetail.jsx:45-53 | A delimited span at the front is wrapped in the open and close tags, and the scan resumes after the closing delimiter |
| Inline.ReplacePairsSkip | portfolio-website/frontend/src/pages/BlogDetail.jsx:45-53 | Text with no delimiter character is copied unchanged before the rest is scanned |
| Inline.ReplacePairsAbsent | portfolio-website/frontend/src/pages/BlogDetail.jsx:45-53 | A pass over text where the delimiter occurs nowhere leaves it unchanged |
| Inline.PairPass | portfolio-website/frontend/src/pages/BlogDetail.jsx:45-53 | One pass over `p d x d q`, with `d` only at the two marked places, gives `p open x close q` |
| Inline.LinkFromSpec | portfolio-website/frontend/src/pages/BlogDetail.jsx:56 | For `\[(.+?)\]\((.+?)\)`, the label is the shortest one that `](url)` completes, the url is the shortest one closed by `)`, and with no result no label can be completed |
| Inline.ReplaceLinksPlain | portfolio-website/frontend/src/pages/BlogDetail.jsx:56 | Text without `[` is unchanged by the link pass |
| Inline.FormatPlain | portfolio-website/frontend/src/pages/BlogDetail.jsx:43-59 | Text with none of `*`, `_`, a backtick or `[` comes out of the formatter unchanged |
| Inline.FormatBoldItalic | portfolio-website/frontend/src/pages/BlogDetail.jsx:43-59 | `a**b**c_d_e` with plain words becomes `a<strong>b</strong>c<em>d</em>e` |
| Inline.FormatLink | portfolio-website/frontend/src/pages/BlogDetail.jsx:43-59 | `pre[caption](url)post` becomes `pre<a href="url" target="_blank" rel="noopener noreferrer">caption</a>post` |
| Inline.FormatNestedEmphasis | portfolio-website/frontend/src/pages/BlogDetail.jsx:43-59 | The bold pass runs first: `**a *b* c***` becomes `<strong>a <em>b</em> c</strong>*` |
| BlogDetail.OrderedItemMatches | portfolio-website/frontend/src/pages/BlogDetail.jsx:140 | The item found is exactly what `^(\d+)\.\s+(.+)$` captures, including the greedy `\s+` giving back one space when nothing else follows, and no item is found exactly when the regex fails |
| BlogDetail.MarkdownParser.constructor | portfolio-website/frontend/src/pages/BlogDetail.jsx:36-41 | The parser starts with no elements, no code block and no pending list |
| BlogDetail.MarkdownParser.FlushList | portfolio-website/frontend/src/pages/BlogDetail.jsx:61-73 | `flushList` updates the fields exactly as `Flush` does |
| BlogDetail.MarkdownParser.AddOrderedItem | portfolio-website/frontend/src/pages/BlogDetail.jsx:141-148 | A numbered item starts a fresh ordered list unless items are pending, then is appended |
| BlogDetail.MarkdownParser.ProcessLine | portfolio-website/frontend/src/pages/BlogDetail.jsx:75-174 | One iteration of the `forEach` body changes the fields exactly as `Step` does |
| BlogDetail.MarkdownParser.ProcessOutsideCode | portfolio-website/frontend/src/pages/BlogDetail.jsx:104-173 | The blank test, the four heading tests and the rest of the callback, for a non-fence line outside code, change the fields exactly as `Step` does |
| BlogDetail.MarkdownParser.ProcessBody | portfolio-website/frontend/src/pages/BlogDetail.jsx:132-173 | The bullet test, the ordered-item match and the remaining tests change the fields exactly as the classification of the line prescribes |
| BlogDetail.MarkdownParser.ProcessBlockLine | portfolio-website/frontend/src/pages/BlogDetail.jsx:151-173 | A blockquote, rule or paragraph line flushes the pending list, then emits its one block |
| BlogDetail.ParseMarkdown | portfolio-website/frontend/src/pages/BlogDetail.jsx:34-180 | The loop over the lines, plus the final flush, returns `Render(content)` |
| BlogDetail.RunAppend | portfolio-website/frontend/src/pages/BlogDetail.jsx:75-174 | Processing `a + b` line by line is processing `a`, then `b` from the resulting state |
| BlogDetail.FlushIdempotent | portfolio-website/frontend/src/pages/BlogDetail.jsx:61-73 | Flushing twice is flushing once. Flushing with nothing pending changes nothing, and it always leaves no items pending. |
| BlogDetail.FlushGood | portfolio-website/frontend/src/pages/BlogDetail.jsx:61-73 | Flushing keeps the state invariant and turns a pending list into exactly one block |
| BlogDetail.StepGood | portfolio-website/frontend/src/pages/BlogDetail.jsx:75-174 | Every line keeps the invariant: `inList` is set exactly when items are pending, and the code accumulator is empty outside a code block. Each line adds at most one block, emitted or pending. |
| BlogDetail.RunGood | portfolio-website/frontend/src/pages/BlogDetail.jsx:75-174 | From the start, the invariant holds after any lines, and blocks plus pending blocks never outnumber the lines |
| BlogDetail.RenderBound | portfolio-website/frontend/src/pages/BlogDetail.jsx:34-180 | A post never renders to more blocks than it has lines |
| BlogDetail.RenderEmpty | portfolio-website/frontend/src/pages/BlogDetail.jsx:34-180 | The empty post renders to no blocks |
| BlogDetail.BlankLine | portfolio-website/frontend/src/pages/BlogDetail.jsx:105-108 | Outside code, a blank line only flushes the pending list |
| BlogDetail.ListRun | portfolio-website/frontend/src/pages/BlogDetail.jsx:133-149 | A run of item lines emits nothing and appends their items, in order, to the pending list |
| BlogDetail.ItemsMakeOneList | portfolio-website/frontend/src/pages/BlogDetail.jsx:133-149 | Consecutive item lines at the end of a post render as exactly one list of their formatted items, in order |
| BlogDetail.BulletLineOf | portfolio-website/frontend/src/pages/BlogDetail.jsx:133-137 | `- x` is a bullet line with item `x` |
| BlogDetail.NumberedLineOf | portfolio-website/frontend/src/pages/BlogDetail.jsx:140-149 | `1. y` is a numbered line with item `y` |
| BlogDetail.BulletThenNumbered | portfolio-website/frontend/src/pages/BlogDetail.jsx:133-149 | `- x` followed by `1. y` renders as one list `[x, y]`, formatted: the numbered item joins the pending bullet list |
| BlogDetail.NonItemLineClosesList | portfolio-website/frontend/src/pages/BlogDetail.jsx:152-173 | Any other non-fence line outside code first emits the pending list, then at most one block of its own, leaving no list pending |
| BlogDetail.HeadingLevels | portfolio-website/frontend/src/pages/BlogDetail.jsx:111-130 | `#` to `####` and a space give a heading of level 2 to 5 with the raw remaining text, after flushing the list |
| BlogDetail.HeadingShape | portfolio-website/frontend/src/pages/BlogDetail.jsx:111-130 | Conversely, every heading line is one to four `#`, a space and the text, at level hashes + 1 |
| BlogDetail.ParagraphLineOf | portfolio-website/frontend/src/pages/BlogDetail.jsx:169-173 | A trimmed line starting with none of `#`, `-`, `*`, `>`, a backtick or a digit is a paragraph |
| BlogDetail.CodeRun | portfolio-website/frontend/src/pages/BlogDetail.jsx:99-102 | Inside a code block, non-fence lines are only accumulated, in order |
| BlogDetail.CodeBlockVerbatim | portfolio-website/frontend/src/pages/BlogDetail.jsx:77-102 | Fence, body lines, fence emits the pending list, then one code block whose text is the body lines joined by newlines, unformatted |
| BlogDetail.UnterminatedCodeDropped | portfolio-website/frontend/src/pages/BlogDetail.jsx:90-102 | A fence that is never closed drops the rest of the post |
| BlogDetail.TwoBullets | portfolio-website/frontend/src/pages/BlogDetail.jsx:133-137 | Two bullet lines leave a list of both items pending, in order |
| BlogDetail.ExamplePost | portfolio-website/frontend/src/pages/BlogDetail.jsx:34-180 | The post heading, paragraph, blank, two bullets, blank, fenced code renders to heading 2, the formatted paragraph, one two-item list and the code block |
| BlogDetail.Tags | portfolio-website/frontend/src/pages/BlogDetail.jsx:255-259 | No tags are shown for an empty tag string. Otherwise there is one tag per comma plus one, each trimmed and comma-free. |
| BlogDetail.TagsRoundTrip | portfolio-website/frontend/src/pages/BlogDetail.jsx:255-259 | Tags that are trimmed and comma-free, joined with commas, come back as the same tags |
| BlogDetail.TagsTrimPieces | portfolio-website/frontend/src/pages/BlogDetail.jsx:255-259 | For comma-free pieces joined with commas, tag i is the i-th piece with its edge whitespace trimmed. For example, `"react, dafny"` gives `["react", "dafny"]`. |
| BlogManager.CollapseShape | portfolio-website/frontend/src/pages/admin/managers/BlogManager.jsx:48 | After `replace(/[^a-z0-9]+/g, '-')` only `a-z0-9` and `-` remain, with no two dashes adjacent |
| BlogManager.CollapseAlnums | portfolio-website/frontend/src/pages/admin/managers/BlogManager.jsx:48 | That pass keeps every `a-z0-9` character in order |
| BlogManager.StripEdges | portfolio-website/frontend/src/pages/admin/managers/BlogManager.jsx:49 | `replace(/^-+\|-+$/g, '')` leaves no dash at either end |
| BlogManager.SlugShape | portfolio-website/frontend/src/pages/admin/managers/BlogManager.jsx:45-50 | Every generated slug uses only `a-z0-9` and `-`, has no dash at an end and no double dash |
| BlogManager.SlugLetters | portfolio-website/frontend/src/pages/admin/managers/BlogManager.jsx:45-50 | The slug's letters and digits are exactly those of the lower-cased title, in order |
| BlogManager.SlugFixedPoints | portfolio-website/frontend/src/pages/admin/managers/BlogManager.jsx:45-50 | A string is its own slug exactly when it already has slug shape |
| BlogManager.SlugIdempotent | portfolio-website/frontend/src/pages/admin/managers/BlogManager.jsx:45-50 | Slugging a slug changes nothing |
| BlogManager.EmptySlug | portfolio-website/frontend/src/pages/admin/managers/BlogManager.jsx:45-50 | The slug is empty exactly when the lower-cased title has no letter or digit |
| BlogManager.DataToSubmit | portfolio-website/frontend/src/pages/admin/managers/BlogManager.jsx:57-60 | The submitted form equals the edited one except for the slug. A non-empty user slug is kept; otherwise the slug is `GenerateSlug(title)`, which has slug shape and carries the title's letters and digits |
| BlogManager.SubmittedSlugEmpty | portfolio-website/frontend/src/pages/admin/managers/BlogManager.jsx:57-60 | The submitted slug is empty exactly when the user left it empty and the title has no letter or digit |
| ProjectCarousel.Next | portfolio-website/frontend/src/components/ProjectCarousel.jsx:10-12 | The next index stays in range, is one more, and wraps from the last to 0 |
| ProjectCarousel.Prev | portfolio-website/frontend/src/components/ProjectCarousel.jsx:14-16 | The previous index stays in range, is one less, and wraps from 0 to the last |
| ProjectCarousel.PrevNext | portfolio-website/frontend/src/components/ProjectCarousel.jsx:10-16 | Previous undoes next |
| ProjectCarousel.NextPrev | portfolio-website/frontend/src/components/ProjectCarousel.jsx:10-16 | Next undoes previous |
| ProjectCarousel.NextTimesSplit | portfolio-website/frontend/src/components/ProjectCarousel.jsx:10-12 | `a + b` clicks on next are `a` clicks, then `b` more |
| ProjectCarousel.FullTurn | portfolio-website/frontend/src/components/ProjectCarousel.jsx:10-12 | As many clicks on next as there are projects come back to the same project |
| ProjectCarousel.Indicators | portfolio-website/frontend/src/components/ProjectCarousel.jsx:73-81 | There is one dot per project, and a dot is active exactly when it is the current index |
| ProjectCarousel.OneActive | portfolio-website/frontend/src/components/ProjectCarousel.jsx:73-81 | Exactly one dot is active |
| ProjectCarousel.Carousel.constructor | portfolio-website/frontend/src/components/ProjectCarousel.jsx:6-8 | The carousel starts on the first project with the modal closed |
| ProjectCarousel.Carousel.CurrentProject | portfolio-website/frontend/src/components/ProjectCarousel.jsx:18 | The shown project is one of the projects |
| ProjectCarousel.Carousel.NextSlide | portfolio-website/frontend/src/components/ProjectCarousel.jsx:10-12 | The index becomes `Next` of the old one; the modal is untouched |
| ProjectCarousel.Carousel.PrevSlide | portfolio-website/frontend/src/components/ProjectCarousel.jsx:14-16 | The index becomes `Prev` of the old one; the modal is untouched |
| ProjectCarousel.Carousel.GoTo | portfolio-website/frontend/src/components/ProjectCarousel.jsx:78 | Clicking dot `k` makes `k` current and its dot active; the modal is untouched |
| ProjectCarousel.Carousel.OpenDetails | portfolio-website/frontend/src/components/ProjectCarousel.jsx:60 | The modal opens on the current project; the index is unchanged |
| ProjectCarousel.Carousel.CloseDetails | portfolio-website/frontend/src/components/ProjectCarousel.jsx:92 | The modal closes; the index is unchanged |
| TypingEffect.StepInv | portfolio-website/frontend/src/hooks/useTypingEffect.jsx:9-39 | Every firing keeps the shown text equal to the first `charIndex` characters of the current text |
| TypingEffect.TypeChar | portfolio-website/frontend/src/hooks/useTypingEffect.jsx:15-19 | While typing, a firing shows the first `charIndex + 1` characters of the current text: one character more |
| TypingEffect.StartDeleting | portfolio-website/frontend/src/hooks/useTypingEffect.jsx:21-24 | With the text fully typed, a firing switches to deleting with the whole text still shown |
| TypingEffect.DeleteChar | portfolio-website/frontend/src/hooks/useTypingEffect.jsx:28-31 | While deleting, a firing shows the first `charIndex - 1` characters of the current text: one character less |
| TypingEffect.NextText | portfolio-website/frontend/src/hooks/useTypingEffect.jsx:34-36 | With everything deleted, a firing moves to the next text, cyclically, and starts typing |
| TypingEffect.Cycle | portfolio-website/frontend/src/hooks/useTypingEffect.jsx:9-39 | Starting to type a text of length `n`, `2n + 2` firings later the hook starts typing the next text with nothing shown |
| TypingEffect.StepsSplit | portfolio-website/frontend/src/hooks/useTypingEffect.jsx:9-39 | `a + b` firings are `a` firings, then `b` more |
| TypingEffect.TypingHook.constructor | portfolio-website/frontend/src/hooks/useTypingEffect.jsx:4-7 | The hook starts at text 0 with nothing shown and typing on |
| TypingEffect.TypingHook.Step | portfolio-website/frontend/src/hooks/useTypingEffect.jsx:9-39 | One effect firing updates the four state variables exactly as `Next` does, keeping the invariant |
| TypingEffect.TypingHook.Output | portfolio-website/frontend/src/hooks/useTypingEffect.jsx:41 | The returned text is empty when there are no texts (the effect then never changes anything), and otherwise a prefix of the current text |

## Left out

- Unicode: `toLowerCase`, the whitespace set of `trim` and `\s`, and code-unit versus code-point indexing are modelled for ASCII only.
- React rendering: element keys, class names (including `language-X` on the code element), the JSX trees, `dangerouslySetInnerHTML` and animations. Blocks are modelled as values.
- HTML escaping: the source does none. The inline formatter's output is modelled as the string the source injects, unescaped.
- Timers: `setTimeout`, `clearTimeout`, the `speed` and `delay` parameters, and the effect scheduler. Each firing is modelled as one `Next` step, with no timing.
- TypingEffect.TypingHook.Step: `texts` is fixed for the hook's lifetime. The source lets it change between renders, which can leave `currentTextIndex` out of range for a shorter array; that is not modelled.
- ProjectCarousel.Carousel.constructor: requires a non-empty project list. With no projects the source reads `projects[0].image` and fails while rendering, so that case is not modelled.
- ProjectCarousel.Carousel: `projects` is fixed for the carousel's lifetime. In the source it is a prop that can change between renders, and a shorter list can leave `currentIndex` out of range; that is not modelled.
- The blog list fetch, the other admin managers, the form's edit and delete handlers, the API calls, and the toast are not part of this model. Only the slug choice inside `handleSubmit` is modelled.
- BlogDetail.ExamplePost: stated for any title, paragraph line, items and code line of the example's shape, not for the literal example text. `Inline.FormatBoldItalic` and `Inline.FormatPlain` give the formatted paragraph and items for that text.
