# Yomi core, modelled in Dafny

Yomi reads Japanese from a photo. The backend sends the image to Azure's Read API
(`ocr_az.py`), splits every recognised line into tokens, and adds hiragana readings
(furigana) to the kanji tokens (`furigana_az.py`). The result goes back to the browser
through a Flask endpoint (`app.py`). User accounts, logins and each user's kanji
collection are kept in MongoDB (`auth.py`). The React frontend:

- extracts the kanji of a text (`kanjiUtils.js`);
- sorts the sidebar's kanji list (`SidebarKanji.js`);
- shows a user's initials (`UserProfile.js`);
- animates a before/after comparison slider (`Compare.js`);
- draws a particle background that follows the pointer (`ParticlesBg.js`).

The project has one module per source file:

- **Compare** (`compare.dfy`): the slider is a class whose handlers update its refs in place.
- **Particles** (`particles.dfy`): the particle field is a class over a `seq` of circles.
- **KanjiUtils** (`kanji_utils.dfy`).
- **SidebarKanji** (`sidebar_kanji.dfy`).
- **UserProfile** (`user_profile.dfy`).
- **Furigana** (`furigana.dfy`).
- **Ocr** (`ocr.dfy`).
- **App** (`app.dfy`).
- **Auth** (`auth.dfy`): the authentication manager is a class over the users collection.

Shared pieces:

- **Wrappers**: `Option` and `Result`.
- **Text**:
  - Python's `strip`, `split` and `join`;
  - decimal printing;
  - ASCII case mapping.
- **Sorting**: a stable sort by an integer key. It stands for both `Array.prototype.sort` and Python's `list.sort`.
- **JsNumber**: JavaScript numbers as exact reals plus NaN and the infinities.

Everything outside the program becomes a parameter:

- random numbers;
- the clock;
- the canvas size;
- the analysers;
- the OCR service's answers;
- the translation services;
- the database's reachability.

## Model

| member | source | states |
|---|---|---|
| KanjiUtils.KanjiMatches | frontend/src/utils/kanjiUtils.js:5-6 | the global match of the CJK range keeps exactly the kanji characters of the text and is no longer than it |
| KanjiUtils.KanjiMatchesOrder | frontend/src/utils/kanjiUtils.js:5-6 | of two kanji of the text, one comes first among the matches iff it comes first in the text |
| KanjiUtils.ExtractKanji | frontend/src/utils/kanjiUtils.js:1-20 | a missing or empty text gives []; otherwise the result is the first-occurrence deduplication of the kanji matches (loop with a seen-set proved equal to it) |
| KanjiUtils.ExtractKanjiCorrect | frontend/src/utils/kanjiUtils.js:1-20 | a character is in the output iff it is a kanji of the text, no character appears twice, and the output follows the order of first occurrence in the text |
| KanjiUtils.DedupOrder | frontend/src/utils/kanjiUtils.js:9-17 | the output lists the kanji in the order of their first occurrence in the text |
| KanjiUtils.DedupElements | frontend/src/utils/kanjiUtils.js:9-17 | deduplication neither loses nor invents an element |
| KanjiUtils.DedupDistinct | frontend/src/utils/kanjiUtils.js:9-17 | deduplication leaves no repeats |
| KanjiUtils.DedupOfDistinct | frontend/src/utils/kanjiUtils.js:9-17 | a list without repeats is unchanged by deduplication |
| KanjiUtils.MatchesOfKanji | frontend/src/utils/kanjiUtils.js:5-6 | a text made only of kanji matches itself whole |
| KanjiUtils.ExtractKanjiIdempotent | frontend/src/utils/kanjiUtils.js:1-20 | extracting again from the extracted kanji gives the same list |
| SidebarKanji.Jlpt | frontend/src/components/SidebarKanji.js:23-34 | a kanji with no entry, no data or a record without a JLPT level counts as level 0; otherwise its recorded level |
| SidebarKanji.Strokes | frontend/src/components/SidebarKanji.js:35-46 | a kanji with no entry, no data or a record without a stroke count counts as 0 strokes; otherwise its recorded count |
| SidebarKanji.SortedKanjiList | frontend/src/components/SidebarKanji.js:19-51 | the list keeps its length; an unknown option (also 'chronological') returns it unchanged |
| SidebarKanji.SortedKanjiPermutation | frontend/src/components/SidebarKanji.js:19-51 | every option returns a permutation of the list |
| SidebarKanji.SortedKanjiOrder | frontend/src/components/SidebarKanji.js:23-46 | jlpt-easy is by descending level, jlpt-hard ascending, stroke-asc ascending strokes, stroke-desc descending |
| SidebarKanji.SortedKanjiStable | frontend/src/components/SidebarKanji.js:19-51 | kanji with equal keys keep their relative order |
| Sorting.SortByCorrect | frontend/src/components/SidebarKanji.js:24-45 | the sort yields a sequence ordered by the key that is a permutation of its input |
| Sorting.SortByStable | frontend/src/components/SidebarKanji.js:24-45 | for every key value, the elements with that key appear in their original order |
| Sorting.SortBySortedIsIdentity | frontend/src/components/SidebarKanji.js:24-45 | sorting an already ordered sequence leaves it unchanged |
| UserProfile.Initials | frontend/src/components/UserProfile.js:28-36 | at most two letters; a missing or empty name gives 'U' |
| UserProfile.InitialsOfWords | frontend/src/components/UserProfile.js:30-35 | for a non-empty name, the i-th letter is the upper-cased first letter of the i-th non-empty space-separated word, for the first min(2, words) words |
| UserProfile.FirstsOfWords | frontend/src/components/UserProfile.js:31-33 | empty segments between consecutive spaces contribute no letter |
| UserProfile.OnlySpacesInitials | frontend/src/components/UserProfile.js:29-35 | a name of spaces only gives the empty string, not 'U' |
| Compare.Clamp | frontend/src/components/Compare.js:243-246 | the result lies in [0, 100]; NaN gives 0; a value in range is kept |
| Compare.ClampNearest | frontend/src/components/Compare.js:243-246 | the clamped value is the point of [0, 100] nearest the input |
| Compare.PercentAt | frontend/src/components/Compare.js:86-94 | the percentage is the clamped pointer offset over the container width; a zero-width container gives 0 or 100 by the side of the pointer |
| Compare.PercentAtOutside | frontend/src/components/Compare.js:90-91 | left of the container gives 0, right of it gives 100 |
| Compare.PercentAtMonotone | frontend/src/components/Compare.js:90-91 | the percentage never decreases as the pointer moves right |
| Compare.JsRemainder | frontend/src/components/Compare.js:60 | JavaScript's `%`: the remainder has the sign of the dividend and magnitude below the divisor |
| Compare.RemainderUnique | frontend/src/components/Compare.js:60 | any quotient/remainder pair of the right sign and size is the one `%` gives |
| Compare.Period | frontend/src/components/Compare.js:59 | the period is at least 100 ms and at least the duration, and equals a duration of 100 ms or more |
| Compare.AutoplayPercent | frontend/src/components/Compare.js:58-62 | the autoplay percentage lies in [0, 100] |
| Compare.AutoplayWithinCycle | frontend/src/components/Compare.js:59-62 | over one cycle the wave rises linearly from 0 to 100 during the first period and falls back during the second |
| Compare.AutoplayPeriodic | frontend/src/components/Compare.js:59-62 | the wave repeats every two periods |
| Compare.AutoplayBeforeStart | frontend/src/components/Compare.js:58-62 | before the start time the wave stays at 0 |
| Compare.AutoplaySamples | frontend/src/components/Compare.js:58-62 | with a 4000 ms duration: 0 at 0 ms, 25 at 1000, 100 at 4000, 50 at 6000, 0 at 8000 |
| Compare.CompareSlider.constructor | frontend/src/components/Compare.js:35-41 | the slider starts at the clamped initial percentage, idle, without listeners; autoplay requests a frame from the mount time |
| Compare.CompareSlider.StopAutoplay | frontend/src/components/Compare.js:48-53 | no animation frame is pending afterwards |
| Compare.CompareSlider.StartAutoplay | frontend/src/components/Compare.js:68-73 | with autoplay on, a frame is requested and the start time reset; otherwise nothing changes |
| Compare.CompareSlider.Animate | frontend/src/components/Compare.js:55-66 | while autoplay runs unhindered the percent becomes the wave's value at the elapsed time, is emitted, and a next frame is requested; hovering or dragging changes nothing |
| Compare.CompareSlider.UpdateFromClientX | frontend/src/components/Compare.js:86-94 | without a container nothing changes; otherwise the percent becomes PercentAt and is emitted once |
| Compare.CompareSlider.HandleMouseEnter | frontend/src/components/Compare.js:96-100 | pointer marked over, hover-enter emitted, autoplay suspended |
| Compare.CompareSlider.HandleMouseLeave | frontend/src/components/Compare.js:102-114 | pointer and interaction cleared; hover mode snaps back to the initial percentage; drag mode keeps the percent; autoplay restarts |
| Compare.CompareSlider.HandleMouseMove | frontend/src/components/Compare.js:116-122 | in hover mode or during a drag the pointer drives the percent and suspends autoplay; drag mode without a drag ignores the move |
| Compare.CompareSlider.EndDrag | frontend/src/components/Compare.js:127-139 | ending an active drag clears it, emits drag-end, detaches the listeners, and restarts autoplay unless hovered; otherwise nothing changes |
| Compare.CompareSlider.StartDrag | frontend/src/components/Compare.js:160-171 | in drag mode a drag starts, drag-start is emitted, autoplay stops and the listeners are attached; other modes change nothing |
| Compare.CompareSlider.HandleTouchMove | frontend/src/components/Compare.js:178-182 | in drag mode a touch with a container drives the percent; otherwise nothing changes |
| Compare.CompareSlider.SetInitialPercentage | frontend/src/components/Compare.js:82-84 | a new initial percentage resets the percent to its clamped value |
| Compare.CompareSlider.HandleMouseLeaveEndingDrag | frontend/src/components/Compare.js:102-139 | corrected leave handler: a drag in progress is ended, so the listeners are detached and drag-end is emitted |
| Compare.LeaveDuringDragAsWritten | frontend/src/components/Compare.js:102-139 | leaving mid-drag, then releasing: listeners stay attached, no drag-end fires, and a later document move still moves the divider |
| Compare.LeaveDuringDragCorrected | frontend/src/components/Compare.js:102-139 | the same gesture with the corrected handler ends with no listeners and a drag-end |
| Particles.HexRun | frontend/src/components/ParticlesBg.js:37 | the run of hexadecimal digits at the front, stopping at the first non-digit |
| Particles.ParseIntHexStopsAtNonDigit | frontend/src/components/ParticlesBg.js:37 | `parseInt(s, 16)` reads the leading hexadecimal digits and ignores what follows |
| Particles.ParseIntHexAllDigits | frontend/src/components/ParticlesBg.js:37 | a string of hexadecimal digits parses to its value |
| Particles.ParseIntHex | frontend/src/components/ParticlesBg.js:37 | an empty string is NaN |
| Particles.StripHash | frontend/src/components/ParticlesBg.js:26 | the colour is the result or '#' followed by it, and one character is removed exactly when the colour starts with '#' |
| Particles.ExpandShort | frontend/src/components/ParticlesBg.js:29-34 | a three-character code doubles each character; any other length is kept |
| Particles.Channel | frontend/src/components/ParticlesBg.js:38-40 | each channel is a byte; NaN gives 0 |
| Particles.ColorChannels | frontend/src/components/ParticlesBg.js:24-40 | all three channels are bytes |
| Particles.ColorRGB | frontend/src/components/ParticlesBg.js:24-44 | the string splits at spaces into exactly three digit fields whose decimal values are the red, green and blue channels (ReadsBackAs) |
| Particles.DecimalFields | frontend/src/components/ParticlesBg.js:42-43 | three numbers written in decimal and joined by single spaces split back into the three numerals, each reading back as its number |
| Particles.FullFormText | frontend/src/components/ParticlesBg.js:24-44 | a six-digit code, with or without '#', gives the decimal values of its three byte pairs |
| Particles.ShortFormText | frontend/src/components/ParticlesBg.js:24-44 | a three-digit code, with or without '#', gives each digit doubled (times 17) in decimal |
| Particles.ChannelsOf24Bits | frontend/src/components/ParticlesBg.js:38-40 | the shifts and masks recover the three bytes of a 24-bit value |
| Particles.FullFormChannels | frontend/src/components/ParticlesBg.js:24-40 | a six-digit code, with or without '#', gives its three byte pairs |
| Particles.ShortFormChannels | frontend/src/components/ParticlesBg.js:24-40 | a three-digit code gives the same colour with or without '#' |
| Particles.ExpandedBytes | frontend/src/components/ParticlesBg.js:29-34 | each expanded short digit d becomes the byte 17·d |
| Particles.WhiteShortAndLong | frontend/src/components/ParticlesBg.js:4 | the default '#FFF' and its long form both give "255 255 255" |
| Particles.NamedColourIsBlack | frontend/src/components/ParticlesBg.js:37-43 | a colour name that starts with a non-hex letter parses to NaN and gives "0 0 0" |
| Particles.RemapValue | frontend/src/components/ParticlesBg.js:149-152 | the result is 0, a non-negative finite number or +Infinity; a finite value over distinct endpoints gives the linear map floored at 0; NaN gives 0; equal source endpoints give +Infinity exactly when the numerator is positive, else 0; over increasing ranges +Infinity stays +Infinity and -Infinity gives 0 |
| Particles.RemapValueIsJs | frontend/src/components/ParticlesBg.js:149-152 | the closed form equals the code's expression evaluated operator by operator on JavaScript numbers (subtraction, multiplication, division, addition, then `> 0 ? : 0`), NaN and the infinities included |
| Particles.PositiveOrZero | frontend/src/components/ParticlesBg.js:151 | `remapped > 0 ? remapped : 0` keeps positive numbers and +Infinity and turns 0, negatives, -Infinity and NaN into 0 |
| Particles.LinearMap | frontend/src/components/ParticlesBg.js:150 | the linear map sends the offset from start1 to the offset from start2 in the ratio of the two ranges |
| Particles.RemapEndpoints | frontend/src/components/ParticlesBg.js:149-152 | the source endpoints map to the target endpoints, floored at 0 |
| Particles.RemapMonotone | frontend/src/components/ParticlesBg.js:149-152 | for an increasing source and target range the remap is monotone |
| Particles.RoundFixed | frontend/src/components/ParticlesBg.js:170 | `toFixed` rounds to the nearest multiple of the step, halves up |
| Particles.Pixel | frontend/src/components/ParticlesBg.js:65-66 | a random position is a whole pixel within the canvas |
| Particles.TargetAlpha | frontend/src/components/ParticlesBg.js:71 | the target opacity lies in [0.1, 0.7] with one decimal |
| Particles.CircleParams | frontend/src/components/ParticlesBg.js:63-88 | a new particle is invisible, undisplaced, inside the canvas, with drift in [-0.1, 0.1) and magnetism in [0.1, 4.1) |
| Particles.ClosestEdge | frontend/src/components/ParticlesBg.js:162-169 | with finite displacements, the distance to the nearest canvas edge is finite and is the minimum of the four edge distances; a NaN or infinite displacement gives NaN or -Infinity |
| Particles.ClosestEdgeIsMathMin | frontend/src/components/ParticlesBg.js:162-169 | the closed form equals `Math.min` over the four edge expressions evaluated on JavaScript numbers, NaN and the infinities included |
| Particles.EdgeFactor | frontend/src/components/ParticlesBg.js:170 | the rounded edge factor is never negative, and is 0 when a displacement is NaN or infinite |
| Particles.EdgeRemap | frontend/src/components/ParticlesBg.js:170 | remapping the closest edge from [0, 20] to [0, 1] gives a finite non-negative number, 0 for NaN and -Infinity |
| Particles.Fade | frontend/src/components/ParticlesBg.js:172-177 | away from the edge the opacity rises by 0.02 up to the target; near the edge it is the target scaled by the factor; never above the target |
| Particles.Step | frontend/src/components/ParticlesBg.js:160-184 | one frame moves a particle by its drift, fades it as Fade says, eases each translation (a JavaScript number) towards the pointer divided by staticity over magnetism, and keeps size, target and magnetism; any staticity and ease are accepted |
| Particles.Attraction | frontend/src/components/ParticlesBg.js:181-184 | for nonzero staticity the pointer target is finite and times staticity equals pointer times magnetism; a zero staticity gives +Infinity, -Infinity or NaN by the sign of the pointer |
| Particles.Eased | frontend/src/components/ParticlesBg.js:181-184 | the eased translation is finite exactly when the old one and the target are finite and ease is nonzero, and is then the real easing step |
| Particles.EasedIsJs | frontend/src/components/ParticlesBg.js:181-184 | the closed form equals `current + (target - current) / ease` evaluated on JavaScript numbers for every operand, division by 0 included |
| Particles.EaseStep | frontend/src/components/ParticlesBg.js:181-184 | the step covers the fraction 1/ease of the gap: (next − current) · ease = target − current |
| Particles.AttractionSide | frontend/src/components/ParticlesBg.js:181-184 | a positive staticity pulls towards the pointer's side, a negative one pushes to the opposite side, and a centred pointer gives 0 |
| Particles.TranslationStaysFinite | frontend/src/components/ParticlesBg.js:181-184 | a translation stays finite through a frame exactly when it was finite and staticity and ease are both nonzero |
| Particles.BrokenTranslationInvisible | frontend/src/components/ParticlesBg.js:162-184 | a particle with a NaN or infinite translation gets opacity 0 and its translation stays non-finite |
| Particles.ZeroPropBlanks | frontend/src/components/ParticlesBg.js:3-9 | with staticity or ease 0, a freshly spawned particle is transparent from its second frame on |
| Particles.StepEasesTowardsPointer | frontend/src/components/ParticlesBg.js:181-184 | with ease at least 1, nonzero staticity and finite translations, a step leaves each translation between its old value and its pointer target (EasesTowards), with the gap shrunk by the factor 1 − 1/ease |
| Particles.SmoothingBetween | frontend/src/components/ParticlesBg.js:181-184 | the eased displacement lies between the old one and its target, and the gap shrinks by the factor 1 − 1/ease |
| Particles.Spawned | frontend/src/components/ParticlesBg.js:118-126 | the i-th spawned particle is CircleParams of the i-th random draw |
| Particles.Pushed | frontend/src/components/ParticlesBg.js:103-105 | drawing a new circle pushes it only when a drawing context exists |
| Particles.Replace | frontend/src/components/ParticlesBg.js:194-197 | the splice removes index k, shifts the later particles down by one and appends the new one |
| Particles.VisitIndex | frontend/src/components/ParticlesBg.js:160-211 | one forEach callback at index k: the rest of the frame from k + 1 on the new array equals the frame from k on the old one, and particles stay well formed |
| Particles.ForEachFrom | frontend/src/components/ParticlesBg.js:160-211 | the forEach over a mutating array keeps every particle well formed and never rewinds the random stream |
| Particles.FrameKeepsCount | frontend/src/components/ParticlesBg.js:187-197 | with a drawing context a frame keeps the number of particles |
| Particles.FrameWithoutContext | frontend/src/components/ParticlesBg.js:103-105 | without a context each escape shrinks the array by one and consumes one random draw |
| Particles.FrameKeepsPrefix | frontend/src/components/ParticlesBg.js:160-211 | a frame never changes the particles below the index it has reached |
| Particles.FrameSkipsNext | frontend/src/components/ParticlesBg.js:160-211 | as written, the particle after an escaped one slides into the visited index and is not stepped that frame |
| Particles.SecondSkipped | frontend/src/components/ParticlesBg.js:160-211 | of two particles, when the first steps beyond the right edge the second ends the frame at index 0 unstepped |
| Particles.FrameSkipExample | frontend/src/components/ParticlesBg.js:160-211 | a concrete frame where the second particle ends unmoved although one step moves it to x = 50.05 |
| Particles.Survivors | frontend/src/components/ParticlesBg.js:160-211 | stepping every particle exactly once keeps at most as many well formed particles |
| Particles.EscapeCount | frontend/src/components/ParticlesBg.js:187-197 | the escaped and the surviving particles add up to the whole array |
| Particles.SurvivorsStepped | frontend/src/components/ParticlesBg.js:179-197 | every survivor is the one-frame step of some original particle |
| Particles.StepOneMore | frontend/src/components/ParticlesBg.js:179-197 | one corrected iteration keeps the loop's account: survivors, escape count and fresh particles up to the next index |
| Particles.StepEach | frontend/src/components/ParticlesBg.js:160-211 | the loop returns the survivors, the escape count, and one fresh particle per escape from the random stream |
| Particles.ParticleField.constructor | frontend/src/components/ParticlesBg.js:3-18 | an empty field of size 0 × 0 with the pointer at the centre, for any staticity and ease |
| Particles.ParticleField.HandleMouseMove | frontend/src/components/ParticlesBg.js:47-60 | the pointer is recorded relative to the canvas centre only when inside the canvas; otherwise it is kept |
| Particles.ParticleField.DrawParticles | frontend/src/components/ParticlesBg.js:118-126 | the field is cleared and refilled with `quantity` fresh particles when a context exists |
| Particles.ParticleField.InitCanvas | frontend/src/components/ParticlesBg.js:129-146 | with a context the size is taken and the field is exactly the `quantity` particles spawned next at that size; without one the field stays empty |
| Particles.ParticleField.Animate | frontend/src/components/ParticlesBg.js:155-214 | as written: the frame is the forEach over the mutating array; with a context the count is kept |
| Particles.ParticleField.AnimateEachOnce | frontend/src/components/ParticlesBg.js:155-214 | corrected frame: every particle is stepped once, the escaped ones are replaced by fresh ones, the count is kept |
| Ocr.NewAzureOcr | ocr_az.py:10-20 | a missing or empty endpoint or key is an error; otherwise the URL is the endpoint without trailing slashes plus `/vision/v3.2/read/analyze` |
| Ocr.StripTrailing | ocr_az.py:18 | `rstrip('/')` removes exactly the trailing slashes |
| Ocr.TrailingSlashesIgnored | ocr_az.py:18-20 | any number of trailing slashes on the endpoint gives the same URL |
| Ocr.OcrUrlShape | ocr_az.py:18-20 | the URL is the stripped endpoint followed by the read path; the stripped endpoint is a prefix of the configured one, equal to it when it does not end in '/' |
| Ocr.Dispatch | ocr_az.py:72-85 | a non-200 poll fails; 'succeeded' completes; 'notStarted' and 'running' retry; 'failed' and any other status fail |
| Ocr.PollForResult | ocr_az.py:63-85 | the poll stops at the first response that does not retry and reports it; all earlier ones retried |
| Ocr.LineConfidence | ocr_az.py:130-137 | a line without words scores 0; otherwise the mean of the word confidences (missing counts as 0) |
| Ocr.LineConfidenceBetween | ocr_az.py:130-137 | the line confidence lies between its lowest and highest word confidence |
| Ocr.LineTexts | ocr_az.py:99-126 | the collected lines are the page lines' texts, in order |
| Ocr.ParseOcrResult | ocr_az.py:87-128 | pages are numbered from 1 with missing sizes as 0; lines and confidence per page; all line texts in order; full text joined by newlines; direction "auto-detected" |
| Ocr.PageTextsCount | ocr_az.py:99-126 | the line list has one entry per line of every page |
| Furigana.RunCountPositive | furigana_az.py:33-35 | the pattern finds a match iff a character of the range occurs |
| Furigana.Classify | furigana_az.py:205-225 | the empty text, and only it, is 'unknown' |
| Furigana.ClassifyByScript | furigana_az.py:205-225 | kanji wins over hiragana, hiragana over katakana, otherwise 'other'; 'mixed' never occurs |
| Furigana.ItemPart | furigana_az.py:162-170 | a kakasi item gives its text, classified, with the hiragana as reading only when it differs from the text |
| Furigana.KakasiParts | furigana_az.py:155-180 | a failed conversion gives the whole text as one unknown part; otherwise part i is the part made of item i |
| Furigana.MecabParts | furigana_az.py:139-153 | at most one part per MeCab word; each part is a non-empty word with its own text type |
| Furigana.NonEmptyWords | furigana_az.py:145-147 | the words kept are exactly the non-empty ones, no more of them than there were words |
| Furigana.MecabPartsAnalyseNonEmptyWords | furigana_az.py:145-150 | the MeCab parts are the non-empty words in MeCab's order, each one the `_analyze_word` of its word |
| Furigana.Parts | furigana_az.py:120-137 | no reading equals its text; without MeCab a failed conversion gives the whole text as one unknown part |
| Furigana.KakasiTokenize | furigana_az.py:155-180 | the tokenizer returns exactly those parts |
| Furigana.AnalyzeWord | furigana_az.py:182-203 | the word keeps its text and type; only a kanji word with kakasi present gets a reading |
| Furigana.MecabTokenize | furigana_az.py:139-153 | one analysed part per non-empty word MeCab returns |
| Furigana.ReadingDiffersFromText | furigana_az.py:120-203 | every reading produced is empty or different from its text |
| Furigana.Furigana | furigana_az.py:90-118 | without kakasi the text is one unknown part; otherwise the parts come from the tokenizer |
| Furigana.AddFurigana | furigana_az.py:90-118 | the annotated text is each part, kanji with a reading written `text(reading)`, joined |
| Furigana.AnnotatedTextLength | furigana_az.py:108-116 | annotation never shortens the text, and leaves it equal exactly when no part is annotated |
| Furigana.KakasiWithoutReadings | furigana_az.py:108-116 | when no part carries a reading the annotated text is the original |
| Furigana.PageOf | furigana_az.py:56-78 | a furigana page keeps number, width, height and one line per OCR line |
| Furigana.AddFuriganaToPage | furigana_az.py:57-78 | the page loop builds exactly that page |
| Furigana.CollectFuriganaLines | furigana_az.py:80-83 | the collected lines are the furigana texts of every line of every page, in order |
| Furigana.ExtractTextWithFurigana | furigana_az.py:37-88 | keeps the OCR result, one page per OCR page, one annotated line per OCR line, all texts in order, joined by newlines |
| Furigana.LineFuriganaTexts | furigana_az.py:80-83 | one furigana text per line, in order |
| Furigana.FuriganaTextsMatchOcr | furigana_az.py:56-86 | as many furigana lines as OCR lines; without kakasi they are the OCR lines |
| Furigana.NoKakasiKeepsOcrText | furigana_az.py:100-104 | without kakasi the furigana lines and text equal the OCR lines and full text |
| Furigana.PartText | furigana_az.py:109-113 | the text comes first; the reading is added in parentheses exactly when the part is a kanji part with a reading |
| Furigana.PartHtml | furigana_az.py:245-250 | a kanji part with a reading becomes a ruby element holding the text and then the reading; any other part is its bare text |
| Furigana.HtmlAgreesWithText | furigana_az.py:245-250 | a part gets ruby markup exactly when the plain text annotates it |
| Furigana.GenerateHtml | furigana_az.py:227-283 | the document is the stylesheet, a newline, and the pieces for every page, line and part joined by newlines |
| Furigana.HtmlPieces | furigana_az.py:237-256 | the pieces open the wrapper, emit each page's pieces in order, and close the wrapper |
| Furigana.PagePiecesCount | furigana_az.py:242-252 | each line contributes one piece per part plus its opening and closing tags |
| App.AllowedFile | app.py:18-20 | an accepted name contains a dot and has a 3- or 4-letter extension after its last one |
| App.AllowedFileByLastDot | app.py:18-20 | a name is accepted iff it contains a dot and the lower-cased text after the last dot is an allowed extension |
| App.ExtensionDecides | app.py:18-20 | with a dot-free extension, the name is accepted exactly when that extension is allowed |
| App.UpperCaseAccepted | app.py:18-20 | the extension check ignores case |
| App.NoExtensionRejected | app.py:18-20 | a name without a dot is rejected |
| App.TranslationQuery | app.py:31-34 | missing or blank text is refused; otherwise the query is the stripped text |
| App.TranslateText | app.py:25-34 | missing or blank text is never translated |
| App.LineDataOf | app.py:148-153 | each response line carries the line's original text, furigana text, parts and confidence |
| App.UploadFile | app.py:103-166 | 400 "No file provided", then "No file selected", then "Invalid file type…"; a processing error gives 500 "Processing failed: …"; success mirrors every page and line |
| Text.Strip | app.py:31 | `strip()` yields a slice of the input with only whitespace cut from either end, and no surrounding whitespace left; empty exactly when the input is all whitespace |
| Text.SplitJoin | frontend/src/components/UserProfile.js:31 | splitting and re-joining on the same separator restores the text |
| Auth.AuthManager.constructor | auth.py:18-53 | connected iff a URI is set, is not 'DUMMY', and the server is reachable |
| Auth.ValidatePassword | auth.py:60-65 | valid iff at least 6 characters, with the matching message |
| Auth.ValidateEmail | auth.py:55-58 | accepted exactly when the text is a well-formed address, or one followed by a single newline |
| Auth.RegistrationCheck | auth.py:88-106 | "all fields required" exactly when a field is empty; a registration that passes has a 3–20 character username, a password of at least 6 characters and a valid email |
| Auth.EmailSplitUnique | auth.py:55-58 | an address matching the email pattern splits at exactly one '@' and one final dot |
| Auth.ValidateEmailFinalNewline | auth.py:55-58 | `re.match` with `$` also accepts a valid address followed by one newline |
| Auth.Normalise | auth.py:83-86 | the normalised email and username end in a non-space |
| Auth.RegistrationFailures | auth.py:89-106 | each failure message is given exactly when all earlier checks passed and its own check fails |
| Auth.RegistrationAccepted | auth.py:89-106 | a registration passes iff every field is present, the email is well formed, the username has 3–20 word characters, and the password has at least 6 characters |
| Auth.FirstMatch | auth.py:108-111 | `find_one` returns the first matching user or reports that none matches |
| Auth.NormalisedEnd | auth.py:83 | a stripped and lower-cased text is no longer than the input, has no whitespace at either end and no upper-case ASCII letter |
| Auth.LoginKey | auth.py:174 | the key is no longer than the identifier, has no surrounding whitespace and no upper-case ASCII letter |
| Auth.FindUser | auth.py:181-186 | the first user whose email or username equals the key, and none exactly when no user has it |
| Auth.AppendUnique | auth.py:108-136 | inserting a user whose email and username are new keeps both unique |
| Auth.NextFreeId | auth.py:135-136 | new ids exceed every stored id |
| Auth.AuthManager.InsertOne | auth.py:135-138 | `insert_one` appends the user under the next free id and returns that id |
| Auth.AuthManager.RegisterUser | auth.py:76-165 | 500 when disconnected; 400 with the first failing check; 409 with the "user exists" message exactly when the email or username is taken; when connected, valid and new, 201 with the user appended; any other reply leaves the users unchanged |
| Auth.AuthManager.LoginUser | auth.py:167-221 | 500 when disconnected; 400 without credentials; 401 for an unknown user or wrong password; 200 with the user id exactly on success |
| Auth.UppercaseUsernameNotFound | auth.py:174-189 | as written: a username with an upper-case letter can never be found by itself, because the identifier is lower-cased |
| Auth.FoundByOwnUsername | auth.py:174-189 | corrected lookup (email lower-cased, username as typed): every user is found by their own username |
| Auth.AuthManager.SaveKanjiToCollection | auth.py:274-325 | 404 for an unknown user; otherwise the collection becomes the merge and the reported count is the as-written one |
| Auth.Merge | auth.py:290-297 | the collection grows by at most one entry per item and never shrinks |
| Auth.MergeKeepsExisting | auth.py:288-298 | entries already saved keep their place and value |
| Auth.MergeKeys | auth.py:288-298 | the merged keys are exactly the old keys plus the new ones |
| Auth.MergeDistinct | auth.py:288-298 | the merged collection has no duplicate kanji |
| Auth.MergeFirstWins | auth.py:288-298 | a new kanji is stored with the first item that brought it |
| Auth.CountAbsent | auth.py:301 | the count of new kanji never exceeds the items sent |
| Auth.SavedCountAsWritten | auth.py:288-301 | as written: with an existing collection the new count is always 0 |
| Auth.NewKanjiCountCorrect | auth.py:288-301 | corrected: the count is positive iff the merge grew the collection, and at least the growth |
| Auth.AuthManager.GetUserKanjiCollection | auth.py:327-361 | 404 for an unknown user; otherwise a permutation of the collection, newest first, ties kept in order |
| Auth.CandidateInjective | auth.py:402-409 | distinct counters give distinct candidate usernames |
| Auth.FreeUsername | auth.py:402-409 | the chosen username is free, and is the first free candidate |
| Auth.Usernames | auth.py:402-409 | the set of taken usernames is exactly those of stored users |
| Auth.AuthManager.HandleGoogleOAuth | auth.py:386-461 | 400 without an email; an existing email logs in unchanged; otherwise a new user with the first free username is appended and logged in |

## Left out

- I/O is not modelled:
  - HTTP requests and JSON (de)serialisation;
  - the Flask request and response objects and the temporary upload file;
  - MongoDB drivers (the database is a `seq` of users, and reachability is a parameter);
  - bcrypt hashing (the password check is a parameter);
  - JWT creation;
  - `time.sleep` between polls.
- The translation services behind `translate_text` are a parameter function. Only the guard on the input is modelled.
- The pykakasi and MeCab libraries are not modelled. Their outputs are parameters of the analysers. Only how the code uses them is modelled.
- Canvas drawing is not modelled, nor `requestAnimationFrame`, `performance.now`, `window.devicePixelRatio` or `Math.random`:
  - time and the canvas size are parameters;
  - random values come from a stream `nat -> Spawn` of numbers in [0, 1).
- Numbers are not floating point:
  - JavaScript and Python numbers are exact reals; in the particle arithmetic NaN and the infinities propagate as in IEEE 754, with a single zero (no -0);
  - `toFixed` rounding is modelled exactly;
  - binary rounding errors are not.
- Case mapping: `str.lower()`, `toUpperCase()` and `charAt` cover ASCII only. Unicode case mapping and UTF-16 surrogate pairs are not modelled.
- `werkzeug.secure_filename`, `MAX_CONTENT_LENGTH` (the 413 reply) and the Flask routes other than upload are not part of this model.
- Registration:
  - the "Failed to create user" branch is not modelled, because inserting always yields an id;
  - an invalid ObjectId string and a missing `'char'` key in a kanji item are not modelled, since the model's ids and items are typed.
- Reply bodies are not modelled beyond the status and message: tokens, user dictionaries and timestamps.
- `get_user_profile`, `update_user_progress`, `remove_kanji_from_collection` and `update_user_profile` are not part of this model.
- Sorting entries without `added_at` is not modelled. Python would compare '' with numbers; the model's entries always carry a time.
- Compare timing:
  - the autoplay wave rises over one full period and falls over the next, so 1000 ms into a 4000 ms duration the slider is at 25;
  - a half-period reading would give 50, but the model follows the code.
- ParticlesBg: the out-of-bounds test uses the particle's base position, without the pointer displacement, as the code does.
- Compare.CompareSlider: the props other than `initialSliderPercentage` (`mode`, `autoplay`, `autoplayDuration`) are fixed when the slider is created; the effect at frontend/src/components/Compare.js:75-79 that restarts autoplay whenever these props or the callbacks change, even while hovered or dragging, is not modelled, nor the identity of the handler object reassigned on each render (Compare.js:146-151).
- Particles.ParticleField.InitCanvas: the size is recorded without the device pixel ratio scaling, which only affects drawing.

## Findings

| source | as written | input that shows it | evidently intended | confidence | as-written member | corrected member |
|---|---|---|---|---|---|---|
| frontend/src/components/Compare.js:102-114 | leaving the widget during a drag clears `isDraggingRef` without calling `endDrag`, so the document listeners stay attached and `onDragEnd` never fires | drag mode: mouse down, leave the widget, release, then move the pointer to x = 300 over a 200-pixel container | leaving ends the drag through `endDrag` | not executed | Compare.LeaveDuringDragAsWritten | Compare.LeaveDuringDragCorrected |
| frontend/src/components/ParticlesBg.js:160-197 | `splice(i, 1)` inside `forEach` shifts the next particle into the visited index, so it is skipped that frame | two particles, the first beyond the right edge of a 100×100 canvas | every particle moves once per frame | not executed | Particles.FrameSkipsNext | Particles.ParticleField.AnimateEachOnce |
| auth.py:288-301 | `existing_kanji` is the stored dictionary itself, so after the merge every item is already in it and `new_count` is 0 | a user with a collection saves one kanji it does not yet hold | count the kanji missing before the merge | not executed | Auth.SavedCountAsWritten | Auth.NewKanjiCountCorrect |
| auth.py:174-189 | the login identifier is lower-cased and also compared with the username, which is stored as typed | user "Taro" logs in with "Taro" | compare usernames as typed, or store them lower-cased | not executed | Auth.UppercaseUsernameNotFound | Auth.FoundByOwnUsername |
