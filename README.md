# YouTube Video Analyzer — a verified model of its page logic

The application takes a YouTube address and asks a hosted language model for
a summary of the video. It then lets the user chat with the model about that
video. This project models the logic of the page that is not a network call
or a stylesheet:

- **Video-id extraction** (`extractVideoId`): the unanchored regular expression
  `(?:https?:\/\/)?(?:www\.)?(?:youtube\.com\/(?:[^\/\n\s]+\/\S+\/|(?:v|e(?:mbed)?)\/|\S*?[?&]v=)|youtu\.be\/)([a-zA-Z0-9_-]{11})`
  and its capture group. Module `VideoId` writes out the backtracking search
  that JavaScript performs:
  - start positions from left to right;
  - the prefix options in the order the greedy `?` tries them;
  - the alternation in source order;
  - greedy `\S+` longest first, and lazy `\S*?` shortest first.

  A separate, declarative description of the accepted text (`Lead`, `CoreMatch`)
  is proved to match the search (soundness and completeness), and the search is
  proved to report the leftmost match. Module `VideoIdLemmas` proves:
  - the usual address shapes (watch, short link, and the `v/`, `embed/` and `e/` forms);
  - the round trip through the embed address built by the video player;
  - the concrete examples.
- **Error classification** (`getErrorMessage`): module `ErrorMessages`. It
  lower-cases the message and returns the first of eight fixed sentences
  whose patterns occur. The `if` chain is proved equal to a table of rules
  read top to bottom. Each sentence is proved to be chosen exactly when its
  own patterns occur and no earlier rule's do.
- **Session controller** (`handleUrlSubmit`, `handleSendMessage`): class
  `Session.Controller`.
  - It holds the seven pieces of React state and the chat handle.
  - Each handler is cut at its `await` into a Begin method and a Complete
    method. The Complete method receives the outcome of the remote call as a
    parameter.
  - The invariant `Valid()` says:
    - the shown id is always the one extracted from the last submitted address;
    - every shown error is one of the nine fixed sentences;
    - a summary always comes with its conversation;
    - while the summary loads, everything else is cleared;
    - the transcript alternates user and model messages, apart from the one
      unanswered message while a reply is awaited.
  - A failed chat request leaves the transcript exactly as it was before the
    message.
- **Summary formatting** (`renderFormattedText` and the panel in
  `AnalysisDisplay`): module `AnalysisDisplay`.
  - The summary is split into lines and blank lines are dropped.
  - Each remaining line is classified, untrimmed, as a heading, a bullet or a
    paragraph.
  - The panel shows a spinner while loading, nothing for an absent or empty
    summary, and the formatted text otherwise.

Module `JsString` holds the JavaScript string built-ins these use:
`startsWith`, `endsWith`, `includes`, ASCII `toLowerCase`, `trim` with
ECMAScript's white-space set, `slice` with negative indices, and
one-character `split` with `join`.

Behaviour of the code that the model keeps:

- A submitted address with no id does **not** discard the current chat
  handle. App.tsx:85-90 leaves `chatInstanceRef` alone, so
  `BeginSubmit` keeps `chat` in that case.
- The expression is not anchored. An id is found inside surrounding text,
  and characters after the 11th are ignored.
- The first path form (`segment/anything/`) is tried before `v/`, `embed/`,
  `e/` and the query form (`VideoId.PathOrder`). After `embed/`, `v/` or `e/`
  the form's own `/` ends the segment run, so a later `/<11 id characters>`
  in the same run of non-space characters is taken instead of the id. After
  `watch?v=` the segment run has not ended yet, so only a later
  `/…/<11 id characters>` is. `EmbedUrl`, `VUrl`, `EUrl` and `WatchUrl`
  require that no `/` follows the id, a simple condition that is enough in
  both cases.

## Model

| member | source | states |
|---|---|---|
| VideoId.ExtractVideoId | App.tsx:57-61 | a result is 11 characters of `[A-Za-z0-9_-]`, taken from the address right after `youtu.be/` or one of the `youtube.com/` path forms; no result exactly when no such form occurs anywhere |
| VideoId.SearchFrom | App.tsx:58-59 | start positions are tried left to right: the reported match has a prefix option and a core, no earlier start matches, and no result means no core anywhere further on |
| VideoId.MatchFrom | App.tsx:58 | at one start, the prefix options `https://www.`, `https://`, `http://www.`, `http://`, `www.`, empty are tried from a given one on: a reported match uses one of them followed by a core, and none is reported only when none of them is followed by a core |
| VideoId.CoreAt | App.tsx:58 | the alternation `youtube.com/<path>` then `youtu.be/`, each followed by an id, is found at a position exactly when the declarative core matches there |
| VideoId.PathFrom | App.tsx:58 | a reported span is one of the three path forms followed by an id, and none is reported only when no form followed by an id exists |
| VideoId.PathOrder | App.tsx:58 | the alternation's order: the first form wins whenever it can be followed by an id, with its longest span; otherwise `v/`, `embed/` or `e/` wins whenever one can; only then the query form, with its shortest span |
| VideoId.ShortPathUnique | App.tsx:58 | `v/`, `embed/` and `e/` exclude each other at a position, so their order in the alternation never matters |
| VideoId.SegAnyFrom | App.tsx:58 | `[^\/\n\s]+\/\S+\/`: sound, complete, and greedy (no longer match followed by an id exists) |
| VideoId.SlashBacktrack | App.tsx:58 | backtracking of the greedy `\S+` finds the last `/` followed by an id within the run, or reports there is none |
| VideoId.QueryFrom | App.tsx:58 | `\S*?[?&]v=`: sound, complete, and lazy (no shorter match followed by an id exists) |
| VideoId.LazyQuery | App.tsx:58 | the lazy run stops at the first `?v=` or `&v=` followed by an id |
| VideoId.IsIdChar | App.tsx:58 | the capture class `[a-zA-Z0-9_-]` |
| VideoId.Run | App.tsx:58 | a greedy character-class run covers only class members and stops at the end or at the first non-member |
| VideoIdLemmas.LeftmostCore | App.tsx:58-60 | no core match starts before the one whose id is returned |
| VideoIdLemmas.SchemeIsFirst | App.tsx:58 | for an address opening with a prefix option and then `y`, that option is the first one the engine can use |
| VideoIdLemmas.WatchUrl | App.tsx:58-60 | `<prefix>youtube.com/watch?v=<id><rest>` yields the id for every prefix option and every rest without `/` |
| VideoIdLemmas.ShortLink | App.tsx:58-60 | `<prefix>youtu.be/<id><rest>` yields the id for every prefix option and any rest |
| VideoIdLemmas.ShortFormUrl | App.tsx:58-60 | `<prefix>youtube.com/<form><id><rest>` yields the id for every prefix option, each of `v/`, `embed/`, `e/`, and every rest without `/` |
| VideoIdLemmas.EmbedUrl | App.tsx:58-60 | `<prefix>youtube.com/embed/<id><rest>` yields the id when no `/` follows it |
| VideoIdLemmas.VUrl | App.tsx:58-60 | `<prefix>youtube.com/v/<id><rest>` yields the id when no `/` follows it |
| VideoIdLemmas.EUrl | App.tsx:58-60 | `<prefix>youtube.com/e/<id><rest>` yields the id when no `/` follows it |
| VideoIdLemmas.PlayerEmbedUrl | components/VideoPlayer.tsx:15 | the embed address the player builds: `https://www.youtube.com/embed/`, the id, then the fixed query `?autoplay=1&modestbranding=1&rel=0` |
| VideoIdLemmas.PlayerEmbedRoundTrip | components/VideoPlayer.tsx:15 | the player's embed address for a valid id gives that id back |
| VideoIdLemmas.NoHostNoId | App.tsx:58-60 | text in which `youtu` never occurs yields no id |
| VideoIdLemmas.ExampleWatch | App.tsx:58-60 | `https://www.youtube.com/watch?v=dQw4w9WgXcQ` yields `dQw4w9WgXcQ` |
| VideoIdLemmas.ExampleBareWatch | App.tsx:58-60 | the same watch address without scheme or `www.` yields the same id |
| VideoIdLemmas.ExampleShort | App.tsx:58-60 | `https://youtu.be/dQw4w9WgXcQ` yields `dQw4w9WgXcQ` |
| VideoIdLemmas.ExampleWwwShort | App.tsx:58-60 | `www.youtu.be/dQw4w9WgXcQ` yields `dQw4w9WgXcQ` |
| VideoIdLemmas.ExampleNotAUrl | App.tsx:58-60 | `not a url` yields no id |
| ErrorMessages.GetErrorMessage | App.tsx:16-43 | always one of the eight sentences; the "unknown" sentence exactly for a thrown value that is not an `Error`; otherwise the sentence of the first rule that fires on the lower-cased message |
| ErrorMessages.FirstFiring | App.tsx:20-40 | the sentence of the first rule whose patterns occur; the generic sentence exactly when no rule fires |
| ErrorMessages.TableAgrees | App.tsx:20-40 | the `if` chain and the ordered rule table give the same sentence for every message |
| ErrorMessages.SentencesDistinct | App.tsx:21-42 | the eight sentences are pairwise different |
| ErrorMessages.Classification | App.tsx:17-40 | each sentence is chosen if and only if its patterns occur and no earlier rule's do: `api key not valid` over `quota`, `quota` over `resource has been exhausted`, `blocked` with `safety`, `timed out` or `deadline_exceeded` |
| ErrorMessages.CaseInsensitive | App.tsx:18 | messages that differ only in ASCII letter case are classified alike |
| ErrorMessages.InvalidKeyExample | App.tsx:20-21 | a message opening with `API key not valid` gives the authentication sentence |
| ErrorMessages.ExhaustedWithQuotaExample | App.tsx:23-33 | `Resource has been exhausted (e.g. check quota).` gives the quota sentence, not the exhaustion one |
| Session.PairedReply | App.tsx:102-104 | the reply to the one unanswered user message completes an alternating transcript |
| Session.PairedRollback | App.tsx:105-108 | `slice(0, -1)` on a transcript with one unanswered message drops exactly that message and leaves an alternating transcript |
| Session.Controller.Valid | App.tsx:47-55 | the invariant over the page state: the id is the one extracted from the address; an error is the invalid-address sentence or one of the eight classified ones; a summary has its conversation; loading clears everything else; the transcript alternates user and model, with one unanswered user message exactly while a reply is awaited |
| Session.Controller.constructor | App.tsx:47-55 | the initial state: empty address, no id, summary, error or handle, empty transcript, not loading |
| Session.Controller.BeginSubmit | App.tsx:63-90 | the id is re-extracted; without one, the invalid-address error is set, summary and transcript are cleared, no request is made, and loading and handle are unchanged; with one, error, summary, transcript and handle are cleared and loading starts |
| Session.Controller.CompleteSubmit | App.tsx:75-84 | success stores the summary and the new handle; failure stores the classified sentence and leaves the summary absent; loading ends either way |
| Session.Controller.BeginSend | App.tsx:93-99 | without a handle nothing changes; otherwise the user message is appended, the error is cleared and a reply is awaited |
| Session.Controller.CompleteSend | App.tsx:101-111 | success appends the model's reply; failure sets the classified sentence and drops the unanswered message with `slice(0, -1)`; the wait ends either way |
| Session.Controller.HandleUrlSubmit | App.tsx:63-91 | the whole submit: the end state for a missing id, for a summary, and for a failure |
| Session.Controller.HandleSendMessage | App.tsx:93-112 | the whole send: a reply adds exactly the user message and the reply; a failure leaves the transcript exactly as before, with the classified error |
| AnalysisDisplay.ClassifyLine | components/AnalysisDisplay.tsx:13-30 | a heading exactly for lines starting and ending with `**`, its content the line minus two characters at each end (empty for `**` and `***`); otherwise a bullet exactly for lines starting with `- `, its content the rest; otherwise the untrimmed line as a paragraph |
| AnalysisDisplay.UnclassifyClassify | components/AnalysisDisplay.tsx:13-30 | writing an item back gives its line, except for the short headings `**` and `***`, whose content is empty |
| AnalysisDisplay.ClassifyUnclassify | components/AnalysisDisplay.tsx:13-30 | every heading, every bullet, and every paragraph not shaped like one is read back from its written line |
| AnalysisDisplay.IndentedDashIsParagraph | components/AnalysisDisplay.tsx:21-30 | an indented `  - ` line is a paragraph, not a bullet |
| AnalysisDisplay.KeptIffNotBlank | components/AnalysisDisplay.tsx:10 | `line.trim() !== ''` holds exactly for lines that are not all white space |
| AnalysisDisplay.NonBlank | components/AnalysisDisplay.tsx:10 | the filter keeps no blank line and never adds lines |
| AnalysisDisplay.NonBlankConcat | components/AnalysisDisplay.tsx:10 | filtering two runs of lines one after the other filters each run in turn |
| AnalysisDisplay.ClassifyEach | components/AnalysisDisplay.tsx:12-31 | one item per kept line, in order, each classified on its own |
| AnalysisDisplay.RenderFormattedText | components/AnalysisDisplay.tsx:9-32 | as many items as non-blank lines |
| AnalysisDisplay.RenderLine | components/AnalysisDisplay.tsx:9-32 | a single line renders as its own item, or as nothing when blank |
| AnalysisDisplay.RenderFirstLine | components/AnalysisDisplay.tsx:9-32 | a first line, a newline and the rest render as the first line's item (if any) followed by the rest's items |
| AnalysisDisplay.Display | components/AnalysisDisplay.tsx:34-59 | loading shows the spinner whatever the summary; otherwise an absent or empty summary shows nothing; otherwise the formatted summary |
| JsString.IsSpace | App.tsx:58 | ECMAScript white space and line terminators: the set `\s` matches and `trim` removes |
| JsString.StartsWith | components/AnalysisDisplay.tsx:13 | `startsWith`: the string opens with the prefix |
| JsString.EndsWith | components/AnalysisDisplay.tsx:13 | `endsWith`: the string closes with the suffix |
| JsString.IncludesFrom | App.tsx:20-35 | `includes` holds exactly when the pattern occurs at some position |
| JsString.ToLowerAscii | App.tsx:18 | same length, each character lower-cased |
| JsString.LowerOfCaseVariants | App.tsx:18 | strings that differ only in ASCII case lower-case to the same string |
| JsString.TrimStart | components/AnalysisDisplay.tsx:10 | removes exactly the leading white space |
| JsString.TrimEnd | components/AnalysisDisplay.tsx:10 | removes exactly the trailing white space |
| JsString.Trim | components/AnalysisDisplay.tsx:10 | `trim()`: no longer than the string, and neither starts nor ends with white space |
| JsString.TrimEmptyIff | components/AnalysisDisplay.tsx:10 | a string trims to empty exactly when all of it is white space |
| JsString.SliceIndex | components/AnalysisDisplay.tsx:14 | a `slice` index: a negative one counts from the end, and the result is clamped to the length |
| JsString.Slice | components/AnalysisDisplay.tsx:14-22 | `slice(start, end)` on strings and arrays: the elements between the two resolved indices, or none when they cross |
| JsString.SliceDropsTwoEach | components/AnalysisDisplay.tsx:14 | `slice(2, -2)` drops two characters at each end, and leaves nothing of a line shorter than five |
| JsString.SliceDropsLast | App.tsx:108 | `slice(0, -1)` takes back the last append and leaves an empty array empty |
| JsString.Split | components/AnalysisDisplay.tsx:10 | always at least one piece |
| JsString.JoinSplit | components/AnalysisDisplay.tsx:10 | joining the pieces of a split gives the text back |
| JsString.SplitJoin | components/AnalysisDisplay.tsx:10 | splitting a join of separator-free pieces gives the pieces back |
| JsString.SplitFirstLine | components/AnalysisDisplay.tsx:10 | a separator-free first piece, the separator and the rest split into that piece followed by the rest's pieces |

## Left out

- services/geminiService.ts (`summarizeVideo`, `continueChat`, the model configuration and the start-up check for the key variable) is not part of this model. The remote calls appear only as the `SummaryOutcome` and `ReplyOutcome` values passed to the Complete methods. What the conversation handle remembers is not modelled.
- React rendering: JSX, styling, icons, the chat window's scrolling, and the page's show/hide conditions at App.tsx:129-149. The one exception is the panel decision in `AnalysisDisplay.Display`.
- `console.error` at App.tsx:80 and App.tsx:106, which is logging only.
- Session.Controller.BeginSubmit: requires that no request is in flight. The form disables submission while the summary loads (components/UrlInputForm.tsx:14). A submission during a chat request is possible on the page, but its interleaving with the pending reply is not modelled. Neither are overlapping requests, late completions, or the missing cancellation.
- Session.Controller.BeginSend: requires that no reply is awaited, as the chat window enforces (components/ChatWindow.tsx:26). The forms' `trim()` guards on the typed text are not required: the handlers accept any text.
- ErrorMessages.GetErrorMessage: lower-cases ASCII letters only. JavaScript's full Unicode `toLowerCase` also maps, for example, KELVIN SIGN U+212A to `k`. A message spelling a pattern with such characters is classified by the source but not by the model.
- JavaScript strings are sequences of UTF-16 code units, while the model's strings are sequences of characters. Every pattern, prefix and slice bound involved is ASCII, so positions differ only in how a character outside the Basic Multilingual Plane is counted.
- AnalysisDisplay.NonBlank: tests for an all-white-space line directly rather than calling `trim`. `AnalysisDisplay.KeptIffNotBlank` proves the two tests agree.
