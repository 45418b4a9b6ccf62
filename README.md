# Janus-CXR report glue, modelled in Dafny

The application is a Streamlit page around a chest X-ray model. The model
writes one answer. The page cuts that answer into four sections: the report's
thought process, the report, the conclusion's thought process and the
conclusion. It can also have each section translated into Chinese by an
online translation service, with a medical domain. This project models the
text glue around the model and the service, and proves properties of it:

- **`PyText`** models the parts of Python's `str` that the glue relies on:
  - `strip()`, with the full `isspace()` character set;
  - `find`;
  - slicing with non-negative bounds;
  - the last piece of `split`, as Python's left-to-right scan;
  - `'\n'.join` and `split("\n")`;
  - `str(n)` for a natural number.
- **`Sections`** models `extract_block` and the conclusion split
  (`app.py` lines 204-211).
- **`Translator`** models the logic of `translate_text` (lines 77-137):
  - the blank-text short cut;
  - the 1.1-second spacing kept over the session timestamp;
  - the signature pre-image and the salt range;
  - the query parameters;
  - the mapping from the service's reply, or an exception, to the returned
    text.

  A run of calls proves the spacing between consecutive requests. The clock
  readings, the salt, MD5 and the HTTP exchange are parameters.
- **`SessionState`** holds the session as a class: the four sections, the four
  translation results, the toggle and the timestamp. Its methods are the
  toggle, an inference run, the toggle-off clearing, the clear button and the
  translation of each section in turn. The rule that picks what the right-hand
  column shows is a pure function `ViewOf`.

Time is a `real` number of seconds. The two `time.time()` readings of one
call (before the sleep, line 83, and after it, line 89) are the fields `now`
and `later` of a `Call`. `SleptEnough` states what a correct clock and sleep
give: `later >= now + Wait(last, now)`.

## Model

| member | source | states |
|---|---|---|
| PyText.Strip | app.py:206 | `strip()` leaves text with no whitespace at either end, and never longer than the input |
| PyText.StripAt | app.py:206 | the stripped text is the stretch of the input starting at its first character that is not whitespace, with only whitespace before and after it |
| PyText.StripUnique | app.py:206 | any trimmed stretch of `s` with only whitespace around it is `strip(s)`: the characterization determines the result |
| PyText.StripIdempotent | app.py:206 | stripping twice is stripping once |
| PyText.BlankIff | app.py:79 | `not text.strip()` holds exactly when the text is whitespace only |
| PyText.SkipSpace | app.py:206 | `strip()` starts at the first character that is not whitespace: every character before it is whitespace |
| PyText.TextEnd | app.py:206 | `strip()` ends after the last character that is not whitespace: every character after it is whitespace |
| PyText.Find | app.py:205 | `find` gives -1 exactly when the marker is absent, and otherwise the first index where it occurs |
| PyText.FindAt | app.py:205 | given any first occurrence of the marker, `find` returns its index |
| PyText.Slice | app.py:206 | `a[i:j]` is the stretch from `i` to `j` when `i < j <= len(a)`, and `""` when `j <= i` |
| PyText.CutFrom | app.py:211 | scanning from index `i`, `split` makes its last cut right after an occurrence of the separator and no occurrence starts at or after that cut; the cut stays at `i` exactly when no occurrence starts at or after `i` |
| PyText.LastCut | app.py:211 | the last piece of `split` starts right after an occurrence of the separator, and no occurrence starts inside it; it starts at 0 exactly when the separator is absent |
| PyText.SplitLast | app.py:211 | `split(m)[-1]` is the whole text when `m` does not occur |
| PyText.SplitLastAfterLast | app.py:211 | for a separator that cannot overlap itself, the cut of `split(m)[-1]` follows the last occurrence of `m` |
| PyText.OnlyOccurrenceBefore | app.py:211 | an occurrence of a non-overlapping marker with no occurrence starting after its end is the marker's last occurrence |
| PyText.JoinLines | app.py:123 | `'\n'.join(xs)` is empty exactly when there are no lines or one empty line |
| PyText.SplitJoinLines | app.py:123 | splitting the joined text on line breaks gives the lines back when none of them holds a line break |
| PyText.Decimal | app.py:93 | `str(n)` is a non-empty string of decimal digits with no leading zero |
| PyText.DecimalRoundTrip | app.py:93 | reading back the digits of `str(n)` gives `n` |
| PyText.DecimalInjective | app.py:93 | different numbers have different decimal strings |
| PyText.DecimalLength | app.py:92-93 | a number with `k + 1` digits is written with `k + 1` characters |
| Sections.ExtractBlock | app.py:204-206 | the block is stripped, and it is `""` when either marker is absent |
| Sections.Block | app.py:205-206 | the block is stripped, and it is `""` when either `find` returned -1 |
| Sections.ExtractBlockAt | app.py:204-206 | at the first occurrences `s` of `start` and `e` of `end`, the block is `answer[s+len(start):e]` stripped when `e > s`, else `""` |
| Sections.EndTooEarly | app.py:205-206 | the block is `""` when the first `end` starts before the first `start` has ended |
| Sections.ConclusionOf | app.py:211 | the conclusion is stripped, and without a conclusion marker it is the whole answer stripped, rather than forced to `""` as the other three sections are |
| Sections.ConclusionAt | app.py:211 | the conclusion is the text after the last `"### Conclusion:"`, stripped |
| Sections.ConclusionMarkerNoSelfOverlap | app.py:211 | `"### Conclusion:"` cannot overlap itself, so `split` and "after the last occurrence" agree for it |
| Sections.MissingReportMarker | app.py:208-209 | without `"### Report:"` both the report's thought process and the report are empty |
| Sections.ExtractAll | app.py:208-211 | all four stored sections are stripped; `WellFormedAnswer` gives their values for an answer in prompt order, `MissingReportMarker` for one without `"### Report:"` |
| Sections.BlockAt | app.py:204-206 | with the first `start` at `s` and the first `end` at `e`, no earlier than the end of `start`, the block is `answer[s+len(start):e]` stripped |
| Sections.LastMarker | app.py:211 | in `pre + m + d` with `m` unable to overlap itself and absent from `d`, the occurrence after `pre` is the last one and `d` follows it |
| Sections.FourBlocks | app.py:208-211 | an answer laid out as four markers with text between them yields the three blocks, and its fourth marker's occurrence is the last one |
| Sections.WellFormedAnswer | app.py:208-211 | an answer written in the order the prompt asks gives exactly the four stripped texts between the markers |
| Translator.Fallback | app.py:127-134 | a failed call returns text as long as the prefix and the original together, never equal to the original; `FallbackKeepsText` shows it is the prefix followed by the original |
| Translator.ResponseText | app.py:110-134 | a reply whose `trans_result` items all carry a string `dst` gives those texts joined by line breaks; every other reply, and every exception, gives `"[翻译失败] " + text` |
| Translator.TransResultFirst | app.py:121-130 | `trans_result` is read before `error_code`; `error_code` without `trans_result` gives the fallback |
| Translator.FallbackKeepsText | app.py:127-134 | the fallback is never empty and is the fixed prefix followed by the original text |
| Translator.LinesRecoverable | app.py:123 | the lines of a translation are the `dst` texts, one each, when none holds a line break |
| Translator.Wait | app.py:83-87 | the sleep ends exactly at `last + 1.1` when less than 1.1 has elapsed, and is zero otherwise |
| Translator.WaitLeast | app.py:83-87 | no shorter sleep than `Wait` keeps the spacing |
| Translator.SaltWidth | app.py:92 | every salt in [32768, 65536] is written with five digits |
| Translator.PreImageInjective | app.py:93 | the pre-image `APPID + text + str(salt) + domain + key` determines both the text and the salt |
| Translator.PreImageParts | app.py:93 | with the empty credentials, the pre-image is the text, the salt and the domain |
| Translator.PreImage | app.py:93 | the pre-image is as long as its fields with the salt taking exactly five characters; `PreImageInjective` shows it determines the text and the salt |
| Translator.BuildRequest | app.py:96-106 | the request goes to the field-translation path with seven parameters, no two under the same wire name; `RequestFields` and `ProviderRecomputesSign` give their values |
| Translator.RequestFields | app.py:97-106 | the request goes to the field-translation path with the parameters appid, q, from, to, salt, domain and sign, each carrying its own value |
| Translator.ProviderRecomputesSign | app.py:93-106 | the signature equals MD5 of the request's own appid, q, salt and domain fields followed by the secret key |
| Translator.NamesDistinct | app.py:98-106 | no two parameters share a wire name, so looking a parameter up by its name finds its own value |
| Translator.Translate | app.py:79-89 | blank text returns `""` with the timestamp unchanged and no request; otherwise the call sleeps `Wait`, sets the timestamp once to the post-sleep clock, sends the signed request and returns the reply's text |
| Translator.SpacedAfterLast | app.py:83-89 | on a correct clock, a request starts at least 1.1 after the stored timestamp |
| Translator.ResetSkipsWait | app.py:83-87 | after the clear button's reset to 0, the next request does not wait |
| Translator.BlankUntouched | app.py:79-80 | text that strips to `""` returns `""`, leaves the timestamp alone and sends nothing |
| Translator.Run | app.py:218-227 | a run of calls returns one result per call |
| Translator.Starts | app.py:83-89 | the timestamp a run leaves is the start of its last request, or the one it found when it sent none |
| Translator.SpacedStarts | app.py:83-89 | on a correct clock, each request of a run starts at least 1.1 after the one before, and the first one at least 1.1 after the stored timestamp |
| SessionState.Blank | app.py:53-66 | every one of the four keys holds `""` |
| SessionState.ViewOf | app.py:245 | the right-hand column shows nothing exactly when the report is empty |
| SessionState.Shown | app.py:249-272 | a text area shows either the stored section or its translation, and the section whenever the toggle is off; `ViewField` and `ShownEmptyIff` say which |
| SessionState.ViewField | app.py:249-272 | each text area shows the translation exactly when the toggle is on and the translation is non-empty, and the original otherwise |
| SessionState.ToggleOffShowsOriginals | app.py:249-272 | with the toggle off the column shows the four sections as stored |
| SessionState.ShownEmptyIff | app.py:245-272 | a stored section shows as empty exactly when it is empty, whatever its translation returned |
| SessionState.FailureShowsOriginal | app.py:127-134 | a failed translation shows the failure prefix followed by the section |
| SessionState.RunFour | app.py:218-227 | the four translations of one run are the four calls made one after another, each seeing the timestamp the previous one left |
| SessionState.Session.constructor | app.py:44-66 | a fresh session: empty sections and results, toggle on, timestamp 0 |
| SessionState.Session.SetShowTranslation | app.py:166 | the toggle takes the checkbox's value |
| SessionState.Session.TranslateText | app.py:77-137 | the method's result, request, sleep and new timestamp are those of `Translate` on the old timestamp |
| SessionState.Session.ClearTranslations | app.py:230-231 | every translation result becomes `""`, and nothing else changes |
| SessionState.Session.Clear | app.py:236-242 | sections and results all become `""` and the timestamp becomes 0; the toggle is untouched and the column then shows nothing |
| SessionState.Session.StoreSections | app.py:208-211 | the four stored sections are what the extractor returns, each under its key |
| SessionState.Session.Infer | app.py:168-234 | without an image or a model nothing changes; otherwise the sections are those the extractor gives, and the results are either the run of four translations or all `""`, as the toggle says |
| SessionState.Session.UpdateTranslations | app.py:215-231 | with the toggle on, the results and the timestamp are those of the run; with it off, the results are cleared and the timestamp is kept |
| SessionState.Session.TranslateSections | app.py:218-227 | the four sections are translated in order, each stored under its own key |
| SessionState.Session.CurrentView | app.py:245-272 | the session's column is empty exactly when its report is |

## Left out

- Streamlit: the page setup, styles, columns, widgets, spinners and messages (`st.error`, `st.warning`, `st.success`) are presentation. `st.error` calls are effects with no bearing on the returned text.
- Model loading and inference: the processor, the model, `generate` and `decode` are calls into libraries that are not shown. `answer` is an arbitrary input string, and whether an image was uploaded and a model loaded are two booleans.
- Saving the uploaded image to `/tmp` is file I/O.
- The HTTP connection, the JSON decoding and `conn.close()` are represented by `Exchange`. It holds the decoded reply's shape, or `Raised` for any exception. A `trans_result` that is a string or a dictionary is represented by the sequence of its elements, all `Malformed`, because indexing them raises.
- MD5 (RFC 1321) is a parameter `md5: string -> string`, and the UTF-8 encoding before hashing is folded into it.
- The query string's URL encoding (`urllib.parse.urlencode`) is not modelled. `Request` keeps the ordered list of (wire name, value) pairs.
- Text holding lone surrogate code points cannot be represented: a Dafny `char` is a Unicode scalar value. For such text `sign_str.encode()` at app.py:94 would raise before the `try` of line 110, so `translate_text` would raise instead of returning the fallback; the model does not capture that path.
- `random.randint`, `time.time` and `time.sleep` become inputs: the salt in a `Call`, its two clock readings, and the `slept` duration that `TranslateText` returns.
- Python floats are modelled as exact reals, so rounding in `1.1 - elapsed` is not modelled.
- `translate_text` is only ever called with its default languages `'en'` and `'zh'`. The session passes those. `BuildRequest` takes them as parameters.
- Translator.SpacedStarts: spacing holds for consecutive requests within a run. A run begins from the stored timestamp. The clear button resets that timestamp to 0, so a request made after a clear may start within 1.1 s of the last request before it (`ResetSkipsWait`). The comment on app.py:82 asks for at least 1.1 s between calls; the code keeps that only between clears. The model follows the code, which does the reset on purpose.
- Translator.SpacedStarts: blank sections make no request and do not wait, so the spacing is between requests actually sent, not between calls.
- PyText.SplitLast: Python's `split` cuts at non-overlapping occurrences from left to right. "The text after the last occurrence" is proved equal to it only for separators that cannot overlap themselves, which covers `"### Conclusion:"`.
