# Blog Image Weaver: the item store and the image card, in Dafny

Blog Image Weaver turns a pasted article into a list of image prompts and lets
the user render each prompt into an image. Its only logic is client-side
bookkeeping. This model covers three parts of it:

- the ordered list of image items held by the App component, and its handlers:
  reset, prompt edit, generate one item, generate all pending items, generate
  the first prompts, generate more prompts;
- the item record and its five statuses;
- the image card's download file name and the actions the card offers for each
  status.

Files:

- `types.dfy` (module `Types`): `ImageStatus` and `GeneratedImage`, from types.ts.
- `text.dfy` (module `Text`): the JavaScript string operations the handlers use.
  These are the whitespace class shared by `\s` and `trim()`, `trim()` itself
  and `includes()`.
- `items.dfy` (module `Items`): the pure meaning of the handlers. It holds the
  service answers (`Outcome`, `Failure`), the effect of one generation, the
  effect of a batch, and the `Settled` invariant every handler keeps.
- `app.dfy` (module `App`): class `Store`, which has the App component's three
  state variables as fields. Each handler is a method, and each method is
  proved against the functions of `Items`.
- `image_card.dfy` (module `ImageCard`): the slug pipeline behind the download
  name, and the status-to-actions switch.

The two Gemini calls are not modelled. Each handler takes the service's answer
as a parameter and returns what it would have sent (`None` when it makes no
call):

- `GenerateOne` takes one `Outcome<string>`;
- `GenerateAll` takes `respond: nat -> Outcome<string>`, the answer for each
  index;
- `GeneratePrompts` and `GenerateMore` take one `Outcome<seq<string>>`.

A thrown value is either an `Error` with a message or something else. For
something else, the handlers read "An unknown error occurred."

## Model

| member | source | states |
|---|---|---|
| `Text.TrimStart` | App.tsx:89 | leading whitespace is dropped: the result is a suffix that is empty or starts with a non-space, and the dropped part is all whitespace |
| `Text.TrimEnd` | App.tsx:114 | trailing whitespace is dropped: the result is a prefix that is empty or ends with a non-space, and the dropped part is all whitespace |
| `Text.Trim` | App.tsx:89 | `trim()` drops the leading whitespace, then the trailing whitespace; what that yields is stated by `TrimStart`, `TrimEnd`, `TrimHasNoOuterSpace` and `TrimEmptyIffBlank` |
| `Text.TrimHasNoOuterSpace` | App.tsx:89 | `trim()` is no longer than its input and neither starts nor ends with whitespace |
| `Text.TrimEmptyIffBlank` | App.tsx:89 | `articleText.trim()` is empty exactly when the article is whitespace only |
| `Text.Includes` | App.tsx:67 | `includes` holds exactly when the substring occurs at some index |
| `Items.Message` | App.tsx:59 | the text a `catch` block reads: the message of a thrown `Error`, and "An unknown error occurred." for any other thrown value |
| `Items.IsCritical` | App.tsx:67 | a failure text is critical exactly when "API key" or "quota" occurs in it at some index |
| `Items.FailsCritically` | App.tsx:57-69 | an image-service answer raises the session notice when it is a failure whose text is critical |
| `Items.ErrorAfter` | App.tsx:67-69 | after one generation the session error becomes the critical notice exactly on a failure whose text contains "API key" or "quota", and is otherwise unchanged |
| `Items.CanGenerate` | App.tsx:42 | a single generation starts only from `pending` or `error` |
| `Items.AnyWithStatus` | App.tsx:16-24 | `some(img => img.status === s)` holds exactly when some item has status `s` |
| `Items.FreshItems` | App.tsx:101 | one item per returned prompt, in order, each with that prompt, `imageUrl` `''`, status `pending` and no error |
| `Items.Prompts` | App.tsx:120 | one prompt per item, in order: item i's prompt at position i |
| `Items.PromptsOfFreshItems` | App.tsx:120-122 | the prompts read back from fresh items are the prompts they were made from |
| `Items.Generated` | App.tsx:52-65 | on success: status `success`, the returned URL, same prompt, earlier error text kept; on failure: status `error`, error "Generation Failed", prompt and URL kept |
| `Items.GeneratedBelow` | App.tsx:73-86 | the batch never changes the length of the list; what it does to each item is stated by `GeneratedBelowAt`, and which indices it sends to the service by `PendingIndices` |
| `Items.GeneratedBelowAt` | App.tsx:73-86 | after the batch has visited the indices below k, item j is generated with its own answer when j < k and it was `pending`, and is otherwise unchanged |
| `Items.CriticalBelow` | App.tsx:67-69 | the batch has raised the critical notice by index k; its meaning is stated by `CriticalBelowMeans` |
| `Items.CriticalBelowMeans` | App.tsx:67-69 | the batch has raised the critical notice by index k exactly when some item below k was `pending` and failed with "API key" or "quota" in its message |
| `Items.PendingIndices` | App.tsx:74-84 | the batch calls the service for exactly the `pending` indices, in strictly ascending order |
| `Items.Settled` | types.ts:3-8 | a settled item is never `loading` or `cancelled` |
| `Items.SettledHasNoLoadingOrCancelled` | App.tsx:21-24 | between handler calls no item is `loading` or `cancelled`, so `isGenerating` is false |
| `Items.FreshItemsSettled` | types.ts:3-8 | freshly created items satisfy the item invariant |
| `Items.GeneratedBelowSettled` | App.tsx:73-86 | a batch keeps the item invariant, so it never produces `loading` or `cancelled` |
| `Items.BatchExample` | App.tsx:74-85 | over `[pending, success, pending]` the batch calls the service for indices 0 and 2 and leaves index 1 alone |
| `Items.CriticalExample` | App.tsx:67-68 | a failure whose message contains "quota" raises the critical notice |
| `App.Store.constructor` | App.tsx:9-14 | initial state: empty article, empty list, no session error |
| `App.Store.HasPendingImages` | App.tsx:16-19 | true exactly when some item is `pending` |
| `App.Store.IsGenerating` | App.tsx:21-24 | true exactly when some item is `loading`; never true in a settled store |
| `App.Store.Reset` | App.tsx:26-30 | the list is empty, the article is `''` and the session error is null |
| `App.Store.SetArticleText` | App.tsx:151 | the article becomes the typed text; the list and the error are unchanged |
| `App.Store.SetPrompt` | App.tsx:32-38 | only item i's prompt is replaced; length, all statuses and all other items are unchanged |
| `App.Store.GenerateOne` | App.tsx:40-71 | no call and no change unless item i exists and is `pending` or `error`; otherwise the service gets item i's prompt, item i becomes `Generated(item, answer)` and no other item changes; the session error becomes the critical notice exactly on an "API key"/"quota" failure and is otherwise kept |
| `App.Store.GenerateAll` | App.tsx:73-86 | calls the service for `PendingIndices` in ascending order, sending each of those items' prompt from the list as it was at call time; the list becomes `GeneratedBelow` of the old list, which by `GeneratedBelowAt` leaves `error`, `success`, `loading` and `cancelled` items untouched; the session error becomes the critical notice exactly when `CriticalBelow` holds, that is when some pending item failed critically (`CriticalBelowMeans`), and is otherwise kept |
| `App.Store.GeneratePrompts` | App.tsx:88-111 | a whitespace-only article sets "Please paste an article…" and leaves the list alone; otherwise the list is exactly the returned prompts as fresh items with no error, or stays empty with the service's message as the error |
| `App.Store.GenerateMore` | App.tsx:113-131 | a whitespace-only article is a no-op; otherwise the service gets the article and the current prompts, and the list is the old list followed by fresh items for the returned prompts; on failure the list is unchanged and the error is "Failed to generate more prompts: " plus the message |
| `ImageCard.LowerChar` | components/ImageCard.tsx:16 | no upper-case ASCII letter is left; A–Z map to a–z in order, and every other character is kept |
| `ImageCard.Lower` | components/ImageCard.tsx:16 | `toLowerCase` keeps the length, turns each A–Z into the matching a–z letter, leaves no upper-case ASCII letter and keeps every other character |
| `ImageCard.StripUnkept` | components/ImageCard.tsx:17 | the result keeps only a–z, 0–9 and whitespace and is no longer than its input |
| `ImageCard.StripUnkeptKeepsKept` | components/ImageCard.tsx:17 | text made only of kept characters passes through unchanged |
| `ImageCard.StripUnkeptEmptyIff` | components/ImageCard.tsx:17 | stripping yields `''` exactly when no character is kept |
| `ImageCard.StripUnkeptChar` | components/ImageCard.tsx:17 | one character stays when it is a–z, 0–9 or whitespace and goes otherwise |
| `ImageCard.StripUnkeptAppend` | components/ImageCard.tsx:17 | stripping works piece by piece, so every kept character, whitespace between words included, stays in its place |
| `ImageCard.CollapseSpaces` | components/ImageCard.tsx:18 | `replace(/\s+/g, '-')`; what it yields is stated by `CollapseWord`, `CollapseRun` and `CollapseSpacesShape` |
| `ImageCard.TrimStartOfRun` | components/ImageCard.tsx:18 | the regular expression's `\s+` takes a whole whitespace run: dropping leading whitespace from a run followed by non-space text leaves exactly that text |
| `ImageCard.CollapseRun` | components/ImageCard.tsx:18 | each maximal whitespace run becomes exactly one '-' in its place |
| `ImageCard.CollapseWord` | components/ImageCard.tsx:18 | text without whitespace passes through collapsing unchanged |
| `ImageCard.CollapseSpacesShape` | components/ImageCard.tsx:18 | on stripped text, collapsing yields only a–z, 0–9 and '-', never two adjacent '-', no growth, and `''` only from `''` |
| `ImageCard.Truncate` | components/ImageCard.tsx:19 | `slice(0, n)` is a prefix: the whole string when it fits, and exactly its first n characters otherwise |
| `ImageCard.Slug` | components/ImageCard.tsx:15-19 | the slug is non-empty, at most 50 characters, only a–z, 0–9 and '-', with no two adjacent '-' |
| `ImageCard.DownloadName` | components/ImageCard.tsx:20 | the download name is the slug followed by ".png" |
| `ImageCard.SlugFallbackIff` | components/ImageCard.tsx:19 | "generated-image" is used exactly when the stripped and collapsed prompt is empty, which happens exactly when no lowercased character is a letter, digit or whitespace; otherwise the slug is that string cut to 50 |
| `ImageCard.SlugOfBlank` | components/ImageCard.tsx:17-19 | a non-empty whitespace-only prompt gives "-", not the fallback |
| `ImageCard.AlnumsOfStripUnkept` | components/ImageCard.tsx:17 | stripping keeps every letter and digit, in order |
| `ImageCard.AlnumsOfSpaces` | components/ImageCard.tsx:18 | whitespace holds no letter or digit |
| `ImageCard.AlnumsOfTrimStart` | components/ImageCard.tsx:18 | dropping a leading whitespace run loses no letter or digit |
| `ImageCard.AlnumsOfCollapseSpaces` | components/ImageCard.tsx:18 | collapsing whitespace keeps every letter and digit, in order |
| `ImageCard.AlnumsOfPrefix` | components/ImageCard.tsx:19 | the letters and digits of a prefix are a prefix of those of the whole |
| `ImageCard.SlugKeepsAlnumOrder` | components/ImageCard.tsx:15-19 | unless the fallback is used, the slug's letters and digits are a prefix of the lowercased prompt's, in order, and are all of them when the cleaned prompt fits in 50 characters |
| `ImageCard.FallbackExample` | components/ImageCard.tsx:19-20 | the prompt "!!!" downloads as "generated-image.png" |
| `ImageCard.ActionsFor` | components/ImageCard.tsx:29-137 | `pending` offers prompt editing and Generate; `error` offers only Retry; `success` offers only Download; `loading` and `cancelled` offer nothing |
| `ImageCard.OfferedGenerationMatchesGuard` | components/ImageCard.tsx:113-137 | Generate or Retry is offered exactly for the statuses from which `GenerateOne` starts a generation; Generate and Retry are never offered together, and Download never with either |

The invariant `Items.Settled` holds for every item between two handler calls:

- no item is `loading` or `cancelled`;
- a `pending` item has `imageUrl` `''` and no error;
- an `error` item carries "Generation Failed".

Every `Store` method ensures `old(Valid()) ==> Valid()`, and the constructor
establishes `Valid()`. It follows that, starting from fresh items, the handlers
reach only `success` and `error`. No handler ever assigns `cancelled`.

## Behaviour worth noting

- A successful generation spreads the old item (App.tsx:54), so an earlier
  error text survives on a `success` item. The status alone does not decide
  which of `imageUrl` and `error` is set. `Items.Generated` keeps that error.
- `handlePromptChange` writes through `newImages[index]` (App.tsx:35). For an
  index outside the list this throws a TypeError rather than doing nothing.
  `SetPrompt` therefore requires an index inside the list. Its only caller
  passes the index of a rendered card (App.tsx:249).
- The card offers prompt editing only for `pending` items
  (components/ImageCard.tsx:31-45). An `error` item can be retried but its
  prompt cannot be edited from the card.

## Left out

- The two Gemini service calls (`generatePromptsFromArticle`,
  `generateImageFromPrompt`): services/geminiService is not part of this model.
  Their answers are parameters.
- React scheduling is not modelled. This covers `useState` updater timing,
  `useMemo` caching, re-rendering and the `useCallback` snapshots: the snapshot
  that `handleGenerateSingleImage` reads at App.tsx:41, and the length that
  `handleGenerateAllImages` captures at App.tsx:74. The store is one sequential
  state, and every step sees the latest values.
- Concurrent single-item generations are not modelled. `loading` exists only
  inside `GenerateOne`, between the status write and the service's answer.
- The shallow copy in `handlePromptChange` mutates the item object that the
  previous state shares (App.tsx:34-35). Values have no aliasing in the model,
  so this is not captured.
- UI-only state is left out: `isLoading`, `isGeneratingMore`, `loadingMessage`
  (App.tsx:11-13, 94-97, 107-110, 116, 128-129) and the buttons they disable.
- Also left out: `console.error` logging, the DOM anchor creation, click and
  removal in `handleDownload`, all JSX, CSS and SVG, and the `Loader`
  component.
- `ImageCard.LowerChar`: lowercases only A–Z. JavaScript's `toLowerCase` maps
  all of Unicode. This changes a slug only for U+0130 and U+212A, which
  JavaScript lowercases to an ASCII letter (plus, for U+0130, a combining mark
  that is then stripped). The model drops them instead.
- The worked example "A Beautiful Sunset! (v2)" → "a-beautiful-sunset-v2" is
  not proved as a concrete evaluation. Dafny does not finish unfolding the
  pipeline on a literal of this length. Each step of it is stated for all
  inputs instead:
  - lowercasing, by `Lower` and `LowerChar`;
  - dropping "!", "(" and ")" while keeping the spaces in place, by
    `StripUnkeptChar` and `StripUnkeptAppend`;
  - each word staying as it is, by `CollapseWord`;
  - each space becoming one '-', by `CollapseRun`;
  - the result fitting in 50 characters, by `Truncate` and `SlugFallbackIff`.
