# WELL-AI interior redesign: prompt composer

A Dafny model of the part of the Streamlit front end (`streamlit_app.py`) that
turns the user's WELL feature selections into the text prompt sent to the image
generation backend, the request that carries it, and the form's reaction to the
backend's answer.

- `Numerals` (`numerals.dfy`): how the f-strings render the slider values. Integer
  sliders render as the shortest decimal numeral. The stair width is a float
  slider with step 0.01. It is modelled as a whole number of centimetres and
  rendered as Python renders the float: `1.5`, `2.0`, `1.57`. Reading back the
  rendered value recovers it.
- `Strings` (`strings.dfy`): `str.replace('-', ' ')` and `", ".join(parts)`, with
  their length, content and position properties.
- `Composer` (`composer.dfy`): the selections, the eight clause kinds and their
  phrases, and the method `ComposePrompt`. The method builds the list of parts
  step by step, as the form does. It is proved equal to a pure reference: the
  included candidates in rank order, rendered and joined. The properties of the
  prompt are proved about that reference. They cover the fixed order, which
  clauses are present, the clause count, the staircase and realism clauses, the
  style hint, numeric interpolation, the all-off prompt and a worked example.
- `Backend` (`backend.dfy`): the multipart request (`image`, `prompt`, `lora`) and
  the 200 / non-200 branch.

## Model

| member | source | states |
|---|---|---|
| Numerals.NatToString | streamlit_app.py:57-65 | the rendered integer is non-empty and all digits, has no leading zero unless the value is 0, and is one digit exactly for values below 10 |
| Numerals.ParseNatToString | streamlit_app.py:57-65 | reading an interpolated integer back gives the slider value |
| Numerals.NatToStringInjective | streamlit_app.py:57-65 | different slider values give different numerals |
| Numerals.NumeralExample | streamlit_app.py:57 | 700 renders as "700" |
| Numerals.FractionDigits | streamlit_app.py:33 | one or two fraction digits, with no trailing zero when there are two |
| Numerals.WidthRoundTrip | streamlit_app.py:33 | the rendered stair width parses back to the same width, so the rendering is exact |
| Numerals.WidthToString | streamlit_app.py:33-66 | `{stair_width}`: the whole metres, a point, and one or two fraction digits with a trailing zero dropped (body; its exactness is WidthRoundTrip) |
| Numerals.WidthExamples | streamlit_app.py:66 | widths 1.5, 2.0 and 1.57 m render as "1.5", "2.0" and "1.57" |
| Strings.ReplaceHyphens | streamlit_app.py:69 | keeps the length and replaces each hyphen, and only hyphens, with a space |
| Strings.ReplaceHyphensSpec | streamlit_app.py:69 | no hyphen is left, other characters are unchanged, and a hyphen-free string is unchanged |
| Strings.ReplaceHyphensIdempotent | streamlit_app.py:69 | replacing twice is the same as replacing once |
| Strings.Join | streamlit_app.py:71 | `", ".join`: empty for no parts, the part itself for one, otherwise the first part, the separator and the join of the rest (body) |
| Strings.JoinSnoc | streamlit_app.py:55-71 | appending one more part to a non-empty list appends the separator and that part to the joined string |
| Strings.JoinLength | streamlit_app.py:71 | the joined prompt is the parts plus one separator per gap |
| Strings.JoinTwo | streamlit_app.py:71 | joining two parts puts the separator between them |
| Strings.JoinStartsWith | streamlit_app.py:71 | the prompt starts with its first part |
| Strings.JoinEndsWith | streamlit_app.py:71 | the prompt ends with its last part |
| Strings.JoinContainsPart | streamlit_app.py:71 | every part occurs unchanged in the prompt at its offset |
| Strings.OccursInJoin | streamlit_app.py:71 | any piece of a part occurs in the prompt |
| Composer.Text | streamlit_app.py:57-69 | the eight phrases, with the lux, greenery, wood, noise and width values and the hyphen-free style interpolated (body) |
| Composer.Candidate | streamlit_app.py:56-69 | the candidate of each position has the clause kind of that position, with its inclusion condition |
| Composer.Clauses | streamlit_app.py:56-69 | the reference clause list: every candidate whose condition holds, in rank order (body) |
| Composer.Prompt | streamlit_app.py:55-71 | the reference prompt: the texts of Clauses joined with ", " (body) |
| Composer.ComposePrompt | streamlit_app.py:55-71 | the appended-and-joined prompt equals the joined texts of the included candidates in rank order |
| Composer.RenderSnoc | streamlit_app.py:55-69 | appending a clause appends its text |
| Composer.UpToMembership | streamlit_app.py:56-69 | a clause is in the list exactly when an included candidate carries it |
| Composer.UpToOrdered | streamlit_app.py:56-69 | the clauses built so far have strictly increasing ranks below the step reached |
| Composer.ClausesOrdered | streamlit_app.py:56-69 | clauses always appear in the fixed order daylight, plants, wood, lounge, acoustics, staircase, realism, style hint |
| Composer.ClausesCarryValues | streamlit_app.py:56-69 | every clause in the prompt is included and carries the selected slider value |
| Composer.PresentIffIncluded | streamlit_app.py:56-69 | a clause kind is present exactly when its condition holds |
| Composer.ClausePresence | streamlit_app.py:56-69 | each toggle's clause is present iff the toggle is on, the style hint iff a style is chosen, staircase and realism always |
| Composer.ToggleCount | streamlit_app.py:56-65 | one toggle clause per enabled toggle |
| Composer.ClausesShape | streamlit_app.py:55-69 | the list is the toggle clauses, then staircase and realism, then the style hint if a style is chosen |
| Composer.ClauseCount | streamlit_app.py:55-69 | clause count is 2 + enabled toggles + 1 if a style is chosen |
| Composer.StaircaseThenRealism | streamlit_app.py:66-67 | the staircase clause follows the toggle clauses and the realism clause comes immediately after it |
| Composer.LastClause | streamlit_app.py:67-69 | the last clause is the style hint with a style and the realism clause without one |
| Composer.OnlyStyleHintHasPrefix | streamlit_app.py:57-69 | a clause's text starts with "style hint: " exactly when it is the style hint |
| Composer.NoStyleNoHint | streamlit_app.py:67-71 | with style "None" no part starts with "style hint: " and the prompt ends with the realism phrase |
| Composer.StyleHintLast | streamlit_app.py:68-71 | with a style the prompt ends with "style hint: " and the style with hyphens turned to spaces, hyphen-free and of the same length |
| Composer.PieceInPrompt | streamlit_app.py:71 | a piece of an included clause's text occurs in the prompt |
| Composer.Included | streamlit_app.py:56-69 | an included candidate is among the prompt's clauses |
| Composer.DaylightInterpolated | streamlit_app.py:56-57 | with daylight on the prompt contains "{lux} lux" |
| Composer.PlantsInterpolated | streamlit_app.py:58-59 | with plants on the prompt contains "{greenery}% area coverage" |
| Composer.WoodInterpolated | streamlit_app.py:60-61 | with wood on the prompt contains "{wood_pct}%" |
| Composer.AcousticsInterpolated | streamlit_app.py:64-65 | with acoustics on the prompt contains "{noise_level} dB" |
| Composer.WidthInterpolated | streamlit_app.py:66 | the prompt always contains "{stair_width}m to promote movement" |
| Composer.ClauseEndings | streamlit_app.py:57-65 | the daylight clause ends with "{lux} lux" and the acoustics clause ends with "{noise_level} dB" |
| Composer.AllOffPrompt | streamlit_app.py:55-71 | with every toggle off and no style the prompt is exactly the staircase clause, ", " and the realism phrase |
| Composer.DaylightOnlyPrompt | streamlit_app.py:55-71 | with only daylight on and no style the prompt is the daylight, staircase and realism clauses joined |
| Composer.DaylightExample | streamlit_app.py:55-71 | daylight at 700 lux with a 2.0 m staircase gives exactly "soft natural daylight filtering through large windows, 700 lux, central staircase with width 2.0m to promote movement, ultra realistic, architectural interior photography" |
| Backend.RequestFor | streamlit_app.py:74-75 | the request: the image as file part, the prompt of the selections as `prompt`, the raw style as `lora` (body) |
| Backend.BuildRequest | streamlit_app.py:71-75 | the request holds the uploaded image, the composed prompt and the raw style |
| Backend.RequestCarriesRawStyle | streamlit_app.py:69-75 | the `lora` field is the selected style unchanged, while the prompt ends with its hyphen-free form |
| Backend.OfferedStylesDiffer | streamlit_app.py:37-42 | every offered style except "None" contains a hyphen, and its form in the hint has none |
| Backend.RequestWithoutStyle | streamlit_app.py:67-75 | style "None" is sent as `lora` "None" and the prompt ends with the realism phrase |
| Backend.Respond | streamlit_app.py:79-88 | status 200, and only 200, shows the returned bytes and offers them as redesigned_interior.png (image/png); any other status shows the failure message |
| Backend.FailureIgnoresBody | streamlit_app.py:87-88 | a failed answer's outcome depends on the status alone |
| Backend.SuccessKeepsBody | streamlit_app.py:79-86 | two successful answers give the same outcome exactly when their bodies are equal |

## Left out

- The Streamlit widgets, page layout, spinner and the uploaded-image preview (streamlit_app.py:7-35, 72): this is user interface. The selections are a parameter.
- Opening the image with PIL and showing the preview (streamlit_app.py:19-20): display only. The model takes the file part of the request (streamlit_app.py:74) to be the whole upload. The preview reads the same upload stream first, and the model does not capture where it leaves the stream, so it does not capture a file part that holds only the unread rest.
- Reading `ngrok_url.txt` and its error branch (streamlit_app.py:45-50): file I/O. The backend URL is not modelled.
- `requests.post` (streamlit_app.py:77): network I/O. The status code and body of the answer are parameters of `Backend.Respond`.
- The `except Exception` handler (streamlit_app.py:90-91): the transport and display errors it catches are outside the model. The composer itself is total and raises nothing.
- Numerals.WidthToString: the stair width is modelled as whole centimetres. The slider's step of 0.01 makes this exact for the widths the form can produce. Other float values, binary rounding and `repr` quirks of Python floats are not modelled.
- Composer.InRange: the slider ranges and the style options are stated, but the composer does not need them and the source never checks them. They are used only where the option list matters (`Backend.OfferedStylesDiffer`).
