# Multimodal chatbot front-end: escaping and session logs

This project models the logic of a small Streamlit app that forwards text
and images to a hosted Gemini model and shows the replies in three tabs:
text chat, image captioning, and image + prompt. The app itself does two
things worth modelling.

- **Display escaping** (`escape.dfy`, module `HtmlEscape`). Every message
  rendered as raw HTML goes through `html.escape(s).replace("\n", "<br>")`
  (`Display`). The file name in the caption history gets only
  `html.escape` (`Escape`). The model proves four things:
  - the output cannot inject markup (`MarkupFree`);
  - every newline becomes exactly one `<br>`;
  - plain characters are copied unchanged and in order;
  - nothing is lost. A decoder (`Unescape`) inverts both transformations,
    so both are injective.
- **Per-tab conversation logs** (`session.dfy`, module `Chat`). A `Session`
  class holds the three logs as `seq<Turn>` fields:
  - Each tab's handler is a method. It takes the button state, the inputs,
    and the remote model's answer as a `Reply` (success text or the
    exception's message).
  - It returns the request it sent, if any, and what it shows.
  - It appends exactly two turns on success and nothing otherwise.
  - The history panel is `Replay`, a loop over the log in steps of two.
    It renders every complete pair in order.
- **Whitespace test** (`strip.dfy`, module `PyText`). Python's
  `str.strip()` and `str.isspace()` are modelled, because the text tab only
  sends a prompt whose `strip()` is non-empty.

The session invariant `Valid()` says that each log has even length and
alternates the tab's two role labels. Every handler keeps it. Each
handler's `ensures` gives the new value of every log in terms of the old
one. So a handler call keeps the old log as a prefix and leaves the other
two logs alone. After a success in the text or image + prompt tab, the
block shown at once is the block `History` renders for the new pair. In the
image tab, the caption shown is that block's answer fragment; the history
block also holds the escaped file name.

## Model

| member | source | states |
|---|---|---|
| HtmlEscape.Escape | app.py:106 | `html.escape` output contains no `<`, `>`, `"` or `'` |
| HtmlEscape.BreakLines | app.py:53 | after `.replace("\n", "<br>")` no newline is left |
| HtmlEscape.Display | app.py:53-54 | `html.escape(s).replace("\n", "<br>")`, defined as `BreakLines(Escape(s))`; its output holds no raw quote, apostrophe or newline |
| HtmlEscape.DisplayMarkupFree | app.py:53-54 | displayed text has no raw quote, apostrophe or newline; every `<` opens and every `>` closes a `<br>`; every `&` starts one of the five character references |
| HtmlEscape.NoScriptTag | app.py:70-71 | no position of displayed text reads `<script` |
| HtmlEscape.DisplayBreakCount | app.py:53 | the displayed text holds exactly as many `<` and as many `>` as the input holds newlines, so each newline yields exactly one `<br>` |
| HtmlEscape.DisplayPlain | app.py:54 | text without `& < > " ' \n` is displayed unchanged |
| HtmlEscape.DisplayAppend | app.py:53 | display works piecewise: the display of `a + b` is the display of `a` followed by that of `b`, so characters keep their order |
| HtmlEscape.EscapeKeepsNewlines | app.py:106 | the image label keeps each newline as a raw newline, no `<br>` |
| HtmlEscape.UnescapeDisplay | app.py:53-54 | decoding displayed text gives back the original text |
| HtmlEscape.UnescapeEscape | app.py:106 | decoding an escaped label gives back the original label |
| HtmlEscape.DisplayInjective | app.py:145-146 | two texts with the same display are equal |
| HtmlEscape.EscapeInjective | app.py:106 | two labels with the same escape are equal |
| PyText.LeadingSpaces | app.py:49 | the number of characters `lstrip()` removes: all of them whitespace, and the next character (if any) is not |
| PyText.TrailingSpaces | app.py:49 | the number of characters `rstrip()` removes: all of them whitespace, and the character before them (if any) is not |
| PyText.Strip | app.py:49 | `prompt.strip()`, defined as `rstrip` after `lstrip` (by the two counts above); the result is no longer than the input and neither starts nor ends with whitespace |
| PyText.StripIsTrimmedSlice | app.py:49 | `strip()` returns a slice of the input with only whitespace cut on both sides; with the contract of `Strip` this determines the result exactly |
| PyText.StripEmptyIffBlank | app.py:49 | `prompt.strip()` is empty exactly when the prompt is all whitespace (or empty) |
| Chat.RenderPair | app.py:104-107 | one history block: the image tab's file name gets `Escape` alone (app.py:106), every other fragment gets `Display` (app.py:70-71, 107, 145-146); both fragments decode back to their entry's text, every `Display`ed fragment is markup-free, and the file name holds no angle bracket |
| Chat.ErrorText | app.py:64 | the error shown for a failed call, `f"Error: {e}"`: the fixed prefix `Error: ` followed by the exception's message, unchanged |
| Chat.Replay | app.py:68-77 | the history emits exactly ⌊len/2⌋ blocks; block k is the rendering of entries 2k and 2k+1; a trailing unpaired entry is skipped; the log is only read |
| Chat.PairedAppend | app.py:61-62 | appending a (user, model) pair keeps a log even-length with alternating roles |
| Chat.Session.History | app.py:143-152 | a tab's history panel, the one method for all three history loops (app.py:66-77, 102-113, 141-152), each tab's difference carried by `RenderPair`: one block per complete exchange of that tab's log, block k rendering entries 2k and 2k+1; in a valid session every entry is rendered |
| Chat.Session.constructor | app.py:31-36 | a session starts with three empty logs |
| Chat.Session.SubmitText | app.py:49-64 | sends `prompt` exactly when the button was pressed and `prompt.strip()` is non-empty, which by `StripEmptyIffBlank` means the prompt is not all whitespace. On success it appends ("You", prompt), ("Gemini", reply) and shows the escaped pair, equal to the block history renders for it. On failure it shows "Error: …" and leaves the log alone. The other logs never change |
| Chat.Session.SubmitImage | app.py:83-100 | sends the image exactly when a file is uploaded and the button was pressed. On success it appends (🖼️ Uploaded, file name), (🤖 Caption, reply) and shows the escaped caption. On failure the log is unchanged. The other logs never change |
| Chat.Session.SubmitCombined | app.py:120-139 | sends the image with the question when a file is uploaded and the button was pressed, even if the question is empty. On success it appends (📷 Image + Prompt, question), (🤖 Gemini, reply). On failure the log is unchanged. The other logs never change |

## Left out

- The remote call `model.generate_content` is not modelled. Its outcome for the one request a handler sends is the `Reply` parameter. Timeouts, retries and response contents are the remote service's.
- The Replicate client, loading `.env`, and stopping on missing keys (app.py:10-24) are configuration I/O and are not modelled.
- Streamlit widgets, spinners, tab headers, the "History" headings and the CSS/HTML wrapper around each block are UI. A `Block` holds only the two escaped fragments it shows. The button press and the uploader's state are parameters.
- PIL decoding (`Image.open(...).convert("RGB")`) is not modelled. The image is the uploaded bytes, passed on opaquely. A decoding failure happens outside the `try`, so it is not a `Reply.Failure`.
- Replay is modelled once instead of as three copies (app.py:68-77, 104-113, 143-152). The renderer of a pair is a parameter, and `Session.History` passes `RenderPair` for the tab. The copies differ only in that the image tab renders the first entry with `Escape` instead of `Display`.
- `Strip` is specified by the number of characters it removes at each end, not by CPython's scanning code. Its whitespace set follows Python's `str.isspace`. Dafny characters are Unicode scalar values, so the lone surrogates a Python string may hold are not modelled.
- Whether every response has a readable `.text` is not modelled. A failure anywhere between the call and the appends counts as one `Failure`, with nothing appended.
- The image + prompt tab performs no emptiness check on its question (app.py:124-127). `SubmitCombined` therefore sends and logs an empty question.
- app.py:39 unpacks the three tabs into four names. As written, this raises `ValueError` before any tab runs. The model assumes the intended three-way unpacking.
