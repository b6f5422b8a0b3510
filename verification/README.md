# AI photo-editor bot: geometry, matting and callback routing in Dafny

This project models the logic inside a Telegram photo-editor bot. The bot
receives a photo, shows an inline keyboard of editing choices (resize,
crop, remove or generate a background, enhance, convert), and answers each
button press. It calls an image processor on the stored photo and sends
the result back. Four parts of the bot are modelled as pure Dafny functions:

- **Processor arithmetic.** The image processors turn an image size and a
  style into a crop box, or an image size and a target box into an output
  size. There are four processor classes:
  - `AIImageProcessor` in `ai_apis.py` (module `AiImageProcessor`);
  - `ImageProcessor` in `deepseek_python_20251015_fc208f.py` (`FullImageProcessor`);
  - `SimpleImageProcessor` in the same file (`FallbackImageProcessor`);
  - `SimpleImageProcessor` in `image_processor.py` (`SimpleImageProcessor`).

  They share `Geometry`, which holds boxes, centring, the largest centred
  box of a given ratio, and the aspect-preserving fit. `ResizeAgreement`
  shows that the three aspect-preserving resize formulas compute the same
  size in exact arithmetic, and fail alike when that size has a zero side,
  although each tests the ratios differently.
- **The local background fallback of `ai_apis.py`** (`LocalBackground`).
  The four corner pixels are averaged by integer division. Each pixel close
  to that colour in all three channels becomes transparent. The gradient
  generator's channels are clamped into 0..255.
- **Output naming and format rules.**
  - `Paths` models `os.path.basename`, `splitext`, `join` and
    `rsplit('.', 1)`, and the `processed/<stem>_<suffix><ext>` scheme.
  - `Imaging` holds Pillow modes and the JPEG flattening rule.
  - `Saving` holds what Pillow's `open`, `resize` and `save` decide: an
    image that cannot be opened, a size with a zero side, the writer that
    the lower-cased extension picks (JPEG, PNG or WebP), and the modes each
    writer takes. The processors of `ai_apis.py` and
    `deepseek_python_20251015_fc208f.py` return a `Result` or an `Outcome`
    carrying these errors; those of `image_processor.py` give the name,
    writer and mode only.
  - `Strings` holds `lower`/`upper` on ASCII letters, `replace`, `startswith` and `str(int)`.
- **Three front ends, each modelled as `Step(state, event) -> (state', effects)`.**
  Each front end is a session store (user id to the path of the last
  upload) and a dispatcher from `callback_data` tokens to effects.
  - `SimpleTelegramBot` is the long-polling bot of `bot_simple.py`.
    `PollBatch` models one pass of its offset loop.
  - `TelegramBot` is the python-telegram-bot front end of
    `deepseek_python_20251015_f33cc7.py`.
  - `WebhookServer` is the Flask webhook of `webhook_server.py`.
  - `Transport` holds what they share:
    - updates and queries;
    - the effects, which are Bot API calls (answer, send, edit, send a
      result) and processor invocations;
    - keyboards and the `resize_` size table;
    - the largest-photo choice and the upload file name;
    - `RunOperation`: the "please wait" edit, the call, then a
      result-and-done pair or a failure edit.
  - `RouterAgreement` compares the three dispatchers.

The outside world is a parameter `Env`. It lists:
- the files that exist (`os.path.exists`);
- the processor calls that raise;
- the downloads that succeed, by `file_id`, with the path each returns.

Updates arrive already classified:
- a message carrying text, photos or something else;
- a callback query;
- an update of another kind;
- an empty body.

Python floats are modelled as exact rationals. A ratio test `a/b > c/d`
becomes `a*d > c*b`, and `int(x*p/q)` becomes the floor of `x*p/q`, which
the contracts state as the bracket `k*q <= x*p < (k+1)*q`. The contracts
hold in this exact arithmetic. The program computes in binary doubles, and
at an exact integer its result can come out one pixel lower; "## Left out"
names each member this concerns.

The three front ends behave differently in ways the model keeps:

| | `SimpleTelegramBot` | `TelegramBot` | `WebhookServer` |
|---|---|---|---|
| photo chosen | largest area (`max`) | last offered (`photo[-1]`) | largest area |
| back token | `back` | `back_main` | (no menus) |
| `resize_mobile` | 720x1280 | 720x1280 | ignored |
| unknown `resize_` token | failure edit (KeyError) | "Invalid resize option." | ignored |
| file existence checked | no | yes, session deleted if gone | yes, entry kept |
| `users` counts | every `/start` | every `/start` | distinct chats sending `/start` or `/help` |

## Model

| member | source | states |
|---|---|---|
| Geometry.CentredSquare | ai_apis.py:468-472 | the `min(w, h)` square is inside the image, square, and centred, with the spare pixel right or down |
| Geometry.CropToRatio | ai_apis.py:474-503 | the ratio crop keeps the full height when the image is wider than `p:q` and the full width otherwise; the cut side is the floor of the exact ratio; the box is inside the image and centred |
| Geometry.RatioCropUnique | ai_apis.py:474-503 | the ratio-crop description fixes the box: two boxes meeting it are equal |
| Geometry.FitInside | ai_apis.py:440-447 | the fitted size is within the target, fills it along one side, and floors the other side from the image's ratio; which side is filled follows the ratio test |
| Geometry.FitInsideExactRatio | ai_apis.py:442-447 | a target with exactly the image's ratio is returned unchanged |
| Geometry.LimitedZero | ai_apis.py:442-449 | filling side `a` and flooring `a*n/d` for the other gives a zero side exactly when `a*n < d` or `b*d < n` |
| Geometry.WidthLimitedZero | ai_apis.py:445-449 | when the width is filled, the fitted size has a zero side exactly in the degenerate case (`DegenerateFit`) |
| Geometry.HeightLimitedZero | ai_apis.py:442-449 | when the height is filled, the fitted size has a zero side exactly in the degenerate case |
| Geometry.FitInsideZero | ai_apis.py:440-449 | the fitted size has a zero side exactly when the target width is worth less than one pixel of the image height, or the target height less than one pixel of the image width |
| AiImageProcessor.ResizeDims | ai_apis.py:439-449 | a zero target height raises ZeroDivisionError; otherwise `resize` raises ValueError exactly when the fit is degenerate, and any other size is an aspect fit with both sides positive that fills the side the ratio test picks |
| AiImageProcessor.JpegMode | ai_apis.py:436-437 | the mode handed to the JPEG writer is never RGBA or P, and every other mode is kept |
| AiImageProcessor.ResizeImage | ai_apis.py:432-460 | an image that cannot be opened fails; a size error passes through; otherwise the resize succeeds exactly when the JPEG writer takes the mode left after RGBA and P are flattened, and fails with that mode otherwise (LA, PA, I, F) |
| AiImageProcessor.ResolutionTarget | ai_apis.py:623-631 | `original` is twice the image, any key outside the table is 1920x1080, and the fixed keys are all 16:9 |
| AiImageProcessor.EnhanceDims | ai_apis.py:633-640 | `resize` raises exactly when the fit into the looked-up box is degenerate; otherwise the size is an aspect fit into that box |
| AiImageProcessor.EnhanceOriginalDoubles | ai_apis.py:628-640 | `original` succeeds and doubles both sides, in exact arithmetic |
| AiImageProcessor.UnknownResolutionIs1080p | ai_apis.py:631 | an unknown key gives the same size as `1080p` |
| AiImageProcessor.SmartCrop | ai_apis.py:462-514 | an image that cannot be opened fails; the crop is saved as JPEG unconverted, so it succeeds exactly when the JPEG writer takes the image's own mode (not RGBA, P, LA, PA, I or F) and fails with that mode otherwise; a success is the `CropBox` box, inside the image |
| AiImageProcessor.CropBox | ai_apis.py:468-503 | every style's box is inside the image and centred and keeps one full side; `square` gives the min square; `portrait`, `landscape` and any other style give the 3:4, 16:9 and 1.618:1 ratio crops |
| AiImageProcessor.Percent | ai_apis.py:363-364 | a percentage such as `int(width * 0.15)` is the floor of the exact product `n*p/100` |
| AiImageProcessor.PercentAtMost | ai_apis.py:363-395 | a percentage of at most 100 never exceeds the whole |
| AiImageProcessor.SmartCropAi | ai_apis.py:350-414 | an image that cannot be opened fails; the crop is saved as JPEG unconverted, so it succeeds exactly when the JPEG writer takes the image's own mode and fails with that mode otherwise; a success is the `CropBoxAi` box, inside the image |
| AiImageProcessor.CropBoxAi | ai_apis.py:360-402 | every style's box is inside the image; `smart` cuts floored 15% margins symmetrically; `face` is horizontally centred, starts 10% down, and is 80% wide and 70% tall; `product` is a centred square of `min` less two 10% paddings; other styles give the centred min square |
| AiImageProcessor.MarginBox | ai_apis.py:360-371 | the `smart` box cuts the same floored 15% from both edges of each side and lies in the image |
| AiImageProcessor.FaceBox | ai_apis.py:373-383 | the `face` box is 80% wide and horizontally centred, starts 10% down, is 70% tall, and lies in the image |
| AiImageProcessor.ProductBox | ai_apis.py:385-395 | the `product` box is the centred square of `min(w, h)` less two 10% paddings and lies in the image |
| AiImageProcessor.ConvertFormat | ai_apis.py:576-609 | an image that cannot be opened fails; jpg/jpeg/png/webp in any case are accepted and anything else raises UnsupportedFormat; an accepted conversion fails exactly when it is a JPEG whose mode, after RGBA and P are flattened, the JPEG writer refuses; JPEG never keeps RGBA or P and keeps any other mode; PNG gives RGBA or RGB, keeping those two; WebP keeps the mode; each writer gets its own extension and takes the written mode |
| AiImageProcessor.ConvertFormatIgnoresCase | ai_apis.py:580-598 | upper-casing the requested format changes neither whether it is accepted nor what is written |
| AiImageProcessor.RemoveBackgroundRemovebg | ai_apis.py:35-67 | the Remove.bg result is used exactly when a key is set and the reply is 200; a missing key, another status or an exception gives the local fallback |
| AiImageProcessor.GenerateBackgroundPhotoroom | ai_apis.py:145-193 | the PhotoRoom result is used exactly when a key is set and the reply is 200 |
| AiImageProcessor.GetApiStatus | ai_apis.py:416-430 | each service is reported available, and its key set, exactly when its key is non-empty |
| AiImageProcessor.UnavailableMeansFallback | ai_apis.py:416-430 | a service reported unavailable never supplies the result: the local fallback runs |
| LocalBackground.ChannelAverage | ai_apis.py:101 | the channel average is the floor of the channel sum over the tuple corners divided by their count |
| LocalBackground.BackgroundColour | ai_apis.py:86-105 | white when a corner fails the tuple-or-int test; the first corner's grey for a single-band image; otherwise the per-channel floor average of the tuple corners |
| LocalBackground.UniformCornersGiveTheirColour | ai_apis.py:94-101 | four corners of one colour give back that colour |
| LocalBackground.MattePixel | ai_apis.py:109-124 | a pixel of three or more bands keeps its RGB; an RGB or RGBA pixel gets alpha 0 exactly when all three channel distances are below 40 (or it was already transparent); otherwise an RGBA pixel is unchanged and an RGB pixel gets alpha 255; fewer bands are copied |
| LocalBackground.MattePixelIdempotent | ai_apis.py:109-124 | matting an RGB or RGBA pixel twice against the same colour is matting it once |
| LocalBackground.MattePixels | ai_apis.py:109-126 | one output pixel per input pixel, in order, each matted |
| LocalBackground.RemoveBackgroundLocal | ai_apis.py:76-126 | the image keeps its size, and pixel `i` is pixel `i` matted against the corner colour |
| LocalBackground.Clamp | ai_apis.py:236-238 | `max(0, min(255, v))` is `v` inside 0..255, 0 below and 255 above |
| LocalBackground.ClampMonotone | ai_apis.py:236-238 | clamping keeps order and clamping twice is clamping once |
| Imaging.FlattenAlpha | image_processor.py:168-170 | RGBA, LA and P become RGB and nothing else changes; the result is never RGBA, LA or P, and an alpha mode left is PA |
| Saving.Resize | ai_apis.py:449 | `resize` goes through exactly when both sides are positive, with that size, and raises ValueError otherwise |
| Saving.WriterOfExtension | deepseek_python_20251015_fc208f.py:57 | the JPEG writer is registered for `.jpg`, `.jpeg`, `.jpe` and `.jfif`, PNG for `.png` and `.apng`, WebP for `.webp`, and no other extension has one of the three |
| Saving.Save | deepseek_python_20251015_fc208f.py:57 | a named writer is used as it is; without one the writer is the one of the lower-cased extension, and a name without one raises the unknown-extension error; the save goes through exactly when the writer takes the mode |
| Saving.FlattenAlphaForJpeg | deepseek_python_20251015_fc208f.py:53-57 | after `FlattenAlpha` the JPEG writer takes a mode exactly when it was RGBA, LA or P or was writable already; PA, I and F stay unwritable |
| Saving.NoExtensionNoSave | deepseek_python_20251015_fc208f.py:503-504 | saving by extension to a name without an extension raises, whatever the mode |
| Saving.ExtensionChoosesWriter | deepseek_python_20251015_fc208f.py:57 | with a writer registered for the extension, a save goes through exactly when that writer takes the mode |
| Paths.Basename | deepseek_python_20251015_fc208f.py:29 | `basename` is the slash-free tail of the path after its last slash |
| Paths.SplitExt | deepseek_python_20251015_fc208f.py:30 | `splitext` halves concatenate to the name; the extension is empty or a dot followed by no dot or slash; a name without a dot has no extension |
| Paths.OutputPath | deepseek_python_20251015_fc208f.py:37-38 | the join puts exactly one slash between `processed` and `<stem>_<suffix><ext>` |
| Paths.OutputPathRoundTrip | deepseek_python_20251015_fc208f.py:27-38 | reading an output name back gives the basename `<stem>_<suffix>.<ext>`, the stem `<stem>_<suffix>` and the extension `.<ext>` |
| Paths.BeforeLastDot | deepseek_python_20251015_fc208f.py:559 | `rsplit('.', 1)[0]` is a prefix that is the whole string when there is no dot, and otherwise stops at the last dot |
| Paths.ResizeSuffixInjective | deepseek_python_20251015_fc208f.py:99 | the suffix `resized_<w>x<h>` determines `w` and `h` |
| Strings.RemoveLeadingToken | deepseek_python_20251015_f33cc7.py:330 | `replace("crop_", "")` on `crop_` + a token without `crop_` gives the token back |
| Strings.RemoveAll | deepseek_python_20251015_f33cc7.py:330 | `replace(pat, "")` never lengthens the string |
| Strings.LowerOfUpper | deepseek_python_20251015_f33cc7.py:413-416 | `upper()` then `lower()` is `lower()`, under the ASCII mapping |
| Strings.Lower | deepseek_python_20251015_fc208f.py:392 | `lower()` on ASCII letters maps each character and keeps the length |
| Strings.Upper | deepseek_python_20251015_f33cc7.py:413 | `upper()` on ASCII letters maps each character and keeps the length |
| Strings.LowerIdempotent | deepseek_python_20251015_fc208f.py:396 | lower-casing an already lowered format changes nothing |
| Strings.NatToString | deepseek_python_20251015_fc208f.py:99 | the decimal form of a size is non-empty, all digits, and has no leading zero |
| Strings.ParseNatToString | deepseek_python_20251015_fc208f.py:99 | reading the digits back gives the number |
| Strings.NatToStringInjective | deepseek_python_20251015_fc208f.py:99 | two numbers with the same decimal form are equal |
| Strings.IntToString | bot_simple.py:259 | `str(i)` starts with a minus sign exactly for a negative number |
| Paths.Join | deepseek_python_20251015_fc208f.py:38 | `os.path.join(a, b)` always ends with `b` |
| Paths.OutputPathRoundTripWithDot | deepseek_python_20251015_fc208f.py:27-38 | a dotted extension given to the output name is read back unchanged, after the stem `<stem>_<suffix>` |
| FullImageProcessor.OutputPathRoundTrip | deepseek_python_20251015_fc208f.py:27-38 | with an extension given, the output reads back as `<stem>_<suffix>` with that extension lower-cased |
| FullImageProcessor.OutputPathKeepsExtension | deepseek_python_20251015_fc208f.py:34-37 | without one, the input's own extension is kept |
| FullImageProcessor.OutputPath | deepseek_python_20251015_fc208f.py:27-38 | `processed/<stem>_<suffix>` followed by the given extension lower-cased after a dot, or by the input's own extension when none is given |
| FullImageProcessor.IsJpegPath | deepseek_python_20251015_fc208f.py:53 | the lower-cased path ends in `.jpg` or `.jpeg` |
| FullImageProcessor.SaveMode | deepseek_python_20251015_fc208f.py:53-55 | the mode is kept unless the path ends in `.jpg`/`.jpeg` in any case; then RGBA, LA and P, and only they, are converted |
| FullImageProcessor.SaveImage | deepseek_python_20251015_fc208f.py:49-61 | a store succeeds only with the writer registered for the lower-cased extension, which must take the `SaveMode` mode; a name without a registered writer raises the unknown-extension error; every failure is a save error |
| FullImageProcessor.ResizeDims | deepseek_python_20251015_fc208f.py:78-97 | keeping the aspect, a zero target height raises ZeroDivisionError and otherwise `resize` raises exactly for a degenerate fit; without it, `resize` raises exactly for a zero target side; a size that goes through has both sides positive and is the target as given, or an aspect fit filling the side the ratio test picks |
| FullImageProcessor.ResizeImage | deepseek_python_20251015_fc208f.py:63-104 | an image that cannot be opened fails and a size error passes through; otherwise the result is `<stem>_resized_<w>x<h><ext>` exactly when `_save_image` can store the image there, and a save error otherwise |
| FullImageProcessor.ResizePathsDiffer | deepseek_python_20251015_fc208f.py:99 | two different output sizes never share an output file name |
| FullImageProcessor.PaddedBox | deepseek_python_20251015_fc208f.py:197-202 | the padded box never leaves the image and grows by at most twice the padding; for a rectangle inside the image it is within the image and contains the rectangle |
| FullImageProcessor.CropPlan | deepseek_python_20251015_fc208f.py:121-168 | the crop planned before saving: an unknown mode is the only failure; every box is inside the image; `smart` pads the largest contour or falls back to the square when there is none or detection raised; `square` is the min square; `portrait` and `landscape` are the 9:16 and 16:9 ratio crops named `cropped_<mode>` |
| FullImageProcessor.SmartCrop | deepseek_python_20251015_fc208f.py:106-214 | an image that cannot be opened fails and an unknown mode raises ValueError; a result is inside the image and storable; a storable planned crop is the result; for `smart` with a contour whose crop cannot be stored the square crop is tried and is the result exactly when it can be stored; every other unstorable plan fails with a save error |
| FullImageProcessor.ConvertFormat | deepseek_python_20251015_fc208f.py:380-408 | a lower-cased format outside `supported_formats` raises before the image is opened; an image that cannot be opened fails; otherwise the conversion succeeds exactly when `<stem>_converted.<format>` can be stored, and then writes that file in the `_save_image` mode; every other failure is a save error |
| FullImageProcessor.JpegTestOfFormat | deepseek_python_20251015_fc208f.py:53 | a path ending in `.<format>` passes the JPEG test exactly for `jpg` and `jpeg` |
| FullImageProcessor.ConvertedPathShape | deepseek_python_20251015_fc208f.py:396 | the converted file is `<stem>_converted.<format>` and stays so after lower-casing |
| FullImageProcessor.ConvertedWriter | deepseek_python_20251015_fc208f.py:53-57 | the converted name's lower-cased extension has the format's own writer registered, and the name passes the JPEG test exactly for jpg and jpeg |
| FullImageProcessor.ConvertStores | deepseek_python_20251015_fc208f.py:392-404 | an accepted conversion is stored exactly when the format's writer takes the mode `_save_image` hands it, and that is the mode written |
| FullImageProcessor.ConvertFormatWrites | deepseek_python_20251015_fc208f.py:392-404 | jpg and jpeg are stored exactly when the JPEG writer takes the mode `FlattenAlpha` leaves, and write that mode; png is stored exactly when the PNG writer takes the mode and keeps it; webp keeps the mode and is always stored |
| FullImageProcessor.ConvertFormatNames | deepseek_python_20251015_fc208f.py:396 | a stored conversion is `<stem>_converted.<format lower-cased>` |
| FullImageProcessor.Ramp | deepseek_python_20251015_fc208f.py:297-299 | `int(c * y / height)` is the floor of the exact ramp and never exceeds `c` |
| FullImageProcessor.GradientColour | deepseek_python_20251015_fc208f.py:295-299 | each channel of row `y` is the floor of its ramp, all lie in 0..255, and red plus blue is 254 or 255 |
| FullImageProcessor.GradientMonotone | deepseek_python_20251015_fc208f.py:295-299 | going down, red and green never decrease and blue never increases |
| FullImageProcessor.GradientEnds | deepseek_python_20251015_fc208f.py:297-299 | the top row is (0, 0, 255) |
| FullImageProcessor.RampsAddUp | deepseek_python_20251015_fc208f.py:297-299 | floors of `255*y/h` and `255*(h-y)/h` add up to 254 or 255 |
| FallbackImageProcessor.SmartCrop | deepseek_python_20251015_fc208f.py:485-508 | the input path comes back exactly when the image cannot be opened or the crop cannot be saved under `cropped_<mode>` by its extension; otherwise every mode writes the centred min square there |
| FallbackImageProcessor.SmartCropIgnoresMode | deepseek_python_20251015_fc208f.py:491-501 | two modes that both write cut the same box |
| FallbackImageProcessor.OutputPath | deepseek_python_20251015_fc208f.py:460-464 | `_get_output_path` is `processed/<stem>_<suffix>` followed by the input's own extension |
| FallbackImageProcessor.LeadingDotFileIsNotCropped | deepseek_python_20251015_fc208f.py:485-508 | a file of one leading dot and a dot-free rest has no extension, nor has its crop name, so the save raises and the input comes back |
| FallbackImageProcessor.ConvertedPathAsWritten | deepseek_python_20251015_fc208f.py:558-559 | the name as written: the `_get_output_path` name cut at its last dot, then `.<format>` |
| FallbackImageProcessor.ConvertedPath | deepseek_python_20251015_fc208f.py:558-559 | the intended converted name is `processed/<stem>_converted.<format>` |
| FallbackImageProcessor.ConvertedPathRoundTrip | deepseek_python_20251015_fc208f.py:558-559 | the intended name reads back as the stem `<stem>_converted` and the extension `.<format>` |
| FallbackImageProcessor.ConvertedPathAgreement | deepseek_python_20251015_fc208f.py:558-559 | the name as written equals the intended one exactly when the input has an extension or its stem has no dot |
| FallbackImageProcessor.LeadingDotName | deepseek_python_20251015_fc208f.py:461-462 | a file name of one leading dot and then neither dot nor slash is all stem and has no extension |
| FallbackImageProcessor.LeadingDotConvertedAsWritten | deepseek_python_20251015_fc208f.py:558-559 | for such a file the name computed is `processed/.<format>`: the cut lands on the leading dot |
| FallbackImageProcessor.CutThenAppend | deepseek_python_20251015_fc208f.py:559 | cutting `q + e` at its last dot and appending `.<format>` gives `q.<format>` exactly when `e` is non-empty or `q` has no dot |
| FallbackImageProcessor.DotFileParts | deepseek_python_20251015_fc208f.py:461-462 | `uploads/.hidden` has stem `.hidden` and no extension |
| FallbackImageProcessor.DotFileLosesItsName | deepseek_python_20251015_fc208f.py:558-559 | for `uploads/.hidden` to png the name computed is `processed/.png` |
| FallbackImageProcessor.DotFileIntendedName | deepseek_python_20251015_fc208f.py:558-559 | the intended name for that input is `processed/.hidden_converted.png` |
| FallbackImageProcessor.ConvertMode | deepseek_python_20251015_fc208f.py:561-563 | the mode changes exactly when the format is `jpeg` in any case and the mode is RGBA, LA or P |
| FallbackImageProcessor.ConvertFormat | deepseek_python_20251015_fc208f.py:554-569 | the input path comes back exactly when the image cannot be opened or the `ConvertMode` image cannot be saved by extension under the name as written; otherwise that file is written in that mode |
| FallbackImageProcessor.ConvertFormatIntended | deepseek_python_20251015_fc208f.py:554-569 | the same conversion saving under the intended name `processed/<stem>_converted.<format>` |
| FallbackImageProcessor.ConvertFormatAgreement | deepseek_python_20251015_fc208f.py:558-559 | the two conversions agree whenever the input has an extension or its stem has no dot |
| FallbackImageProcessor.IntendedConvertWrites | deepseek_python_20251015_fc208f.py:558-565 | with the intended name, a format whose registered writer takes the converted mode is written |
| FallbackImageProcessor.LeadingDotFileIsNotConverted | deepseek_python_20251015_fc208f.py:554-569 | converting a file of one leading dot and a dot-free rest as written gives the input back: `processed/.<format>` has no extension and the save raises |
| FallbackImageProcessor.DotFileIsNotConverted | deepseek_python_20251015_fc208f.py:554-569 | `uploads/.hidden` to png as written comes back unconverted |
| FallbackImageProcessor.DotFileConvertedAsIntended | deepseek_python_20251015_fc208f.py:554-569 | with the intended name, `uploads/.hidden` to png is written to `processed/.hidden_converted.png` for every mode PNG takes |
| FallbackImageProcessor.JpgKeepsAlphaAndFails | deepseek_python_20251015_fc208f.py:561-565 | an RGBA image converted to `jpg` in any case, from a file with an extension, is not flattened; the JPEG writer refuses it and the input comes back |
| SimpleImageProcessor.ResizeDims | image_processor.py:35-39 | `resize` raises exactly when the fit is degenerate; otherwise scaling by `min(tw/ow, th/oh)` gives an aspect fit with both sides positive, and the side with the smaller ratio lands on its target |
| SimpleImageProcessor.PortraitDims | image_processor.py:64-70 | the portrait size fits the image, is 9:16 up to the floor, and keeps the full height unless `16w/9` is smaller |
| SimpleImageProcessor.LandscapeDims | image_processor.py:71-77 | the landscape size fits the image, is 16:9 up to the floor, and keeps the full width unless `16h/9` is smaller |
| SimpleImageProcessor.SmartCrop | image_processor.py:55-89 | every mode gives a centred box inside the image named `cropped_<mode>`; portrait and landscape have those sizes, and every other mode gives the min square |
| SimpleImageProcessor.SquareModesAgree | image_processor.py:55-82 | `smart`, `square` and any unknown mode cut the same box |
| SimpleImageProcessor.Writer | image_processor.py:168-177 | the JPEG, PNG and WebP writers are picked exactly for their lower-cased names |
| SimpleImageProcessor.ConvertFormat | image_processor.py:166-177 | the output is named with the format string, and only the JPEG writer flattens the mode |
| SimpleImageProcessor.OutputPathRoundTrip | image_processor.py:15-26 | a given extension is kept in its own case |
| SimpleImageProcessor.OutputPath | image_processor.py:15-26 | `processed/<stem>_<suffix>` followed by `.<extension>` exactly as given, or by the input's own extension when none is given |
| SimpleImageProcessor.ConvertFormatNamesFormat | image_processor.py:166 | the converted file reads back as `<stem>_converted.<format>` |
| SimpleImageProcessor.RemoveBackground | image_processor.py:103-111 | the mock removal writes an RGBA image to `<stem>_no_bg.png` |
| SimpleImageProcessor.RemoveBackgroundWritesPng | image_processor.py:105-110 | whatever the input's extension, the result is a `.png` |
| ResizeAgreement.ResizeVariantsAgree | ai_apis.py:439-449 | for a positive target height the three aspect-preserving resizes, in exact arithmetic, give the same size, ties included, and fail alike with ValueError exactly for a degenerate fit |
| ResizeAgreement.ZeroTargetHeight | deepseek_python_20251015_fc208f.py:80-97 | a target of height zero raises ZeroDivisionError in the two variants that divide by it, and ValueError from `resize` in the `min` variant |
| Transport.RunOperation | bot_simple.py:440-466 | a processing handler edits "please wait", calls the processor once, then sends the result and a success edit, or ends with the failure edit exactly when the call raises |
| Transport.Perform | bot_simple.py:343-466 | a routed press calls a processor exactly when the route runs one; a menu is one edit, a table miss is "please wait" then the failure edit, and an ignored token does nothing |
| Transport.Largest | bot_simple.py:246 | the chosen photo has maximal area and is the first such |
| Transport.LargestUnique | bot_simple.py:246 | that description picks exactly one index |
| Transport.UploadPathInjective | bot_simple.py:259-260 | `uploads/temp_<user>_<file_id>.jpg` determines both user and file id |
| Transport.UploadPath | bot_simple.py:259-260 | the upload file is `uploads/temp_<user>_<file_id>.jpg` |
| Transport.SizeTable | bot_simple.py:445-451 | the table holds exactly the four landscape tokens, plus `resize_mobile` where present; landscape entries are 16:9 and mobile is 9:16 |
| Transport.SizeTableMatchesResolutions | ai_apis.py:623-627 | each landscape resize entry is the box `enhance_quality_ai` uses for the same key |
| Transport.FoldAppend | bot_simple.py:58-60 | handling two batches in turn is handling their concatenation |
| SimpleTelegramBot.HandlePhoto | bot_simple.py:238-299 | an upload stores `uploads/temp_<user>_<file_id>.jpg` for the largest photo under the user only and sends the main menu; an empty list or failed download changes nothing and replies only to a truthy chat id |
| SimpleTelegramBot.FormatTable | bot_simple.py:560-566 | exactly the three convert tokens map to JPEG, PNG and WebP, each accepted by `convert_format` |
| SimpleTelegramBot.ResolutionTable | bot_simple.py:586-594 | exactly the five enhance tokens map to their keys, each a fixed resolution or `original` |
| SimpleTelegramBot.RouteOf | bot_simple.py:320-427 | a token runs a processor exactly when it is in a table, starts with `crop_`, or is `remove_bg`/`generate_bg`; the call acts on the stored path with the table value; a table miss is a failure edit; `enhance` shows the resolution menu; `back` redraws the main menu |
| SimpleTelegramBot.Dispatch | bot_simple.py:343-403 | at most one processor call, always on the stored path |
| SimpleTelegramBot.HandleCallback | bot_simple.py:301-318 | the press is answered first; a user without a photo gets exactly one "send a photo first" edit and no call; otherwise the dispatch runs on the stored path without an existence check |
| SimpleTelegramBot.Step | bot_simple.py:134-160 | every update counts as a message, `/start` adds a user, and only an upload by a user changes that user's entry |
| SimpleTelegramBot.RunCountsMessages | bot_simple.py:137 | after any run, `messages_processed` has grown by the number of updates |
| SimpleTelegramBot.NoUploadNoPhoto | bot_simple.py:313-316 | a user who sends no photo never gains a stored photo |
| SimpleTelegramBot.RunStoresUploads | bot_simple.py:259-268 | every stored path stays the upload file of its own user |
| SimpleTelegramBot.StoredPhotosArePrivate | bot_simple.py:259-268 | no two users share a stored path |
| SimpleTelegramBot.BackShowsUploadMenu | bot_simple.py:405-427 | `back` redraws the same keyboard an upload shows |
| SimpleTelegramBot.Updates | bot_simple.py:58 | the updates of a batch, in order |
| SimpleTelegramBot.PollBatch | bot_simple.py:55-60 | after a batch the offset is one past the last `update_id` (unchanged for an empty batch), and state and effects are those of handling the batch in order |
| TelegramBot.HandlePhoto | deepseek_python_20251015_f33cc7.py:108-160 | the message is counted first; the last offered size becomes the user's whole session and the main menu goes out; an empty list or failed download leaves the sessions alone and sends the error reply |
| TelegramBot.RouteOf | deepseek_python_20251015_f33cc7.py:184-285 | a processor runs exactly for a table `resize_` token, `crop_`, `remove_bg`, `generate_bg`, `enhance` and `convert_` tokens, and nothing happens exactly for a token none of the tests names; `resize`, `crop` and `convert` show their menus leading back with `back_main`; `remove_bg` and `generate_bg` call the processor's own methods; the five-entry size table resizes and any other `resize_` token is "Invalid resize option."; `crop_` crops; `enhance` enhances at once; `convert_<f>` converts to `f` lower-cased, as a document exactly for png; `back_main` redraws the main menu |
| TelegramBot.HandleCallback | deepseek_python_20251015_f33cc7.py:162-182 | the press is answered first; no session gives "send a photo first"; a missing, empty or vanished photo gives "expired" and deletes only that session; only a usable session reaches the dispatch, on its own path |
| TelegramBot.Step | deepseek_python_20251015_f33cc7.py:44-111 | `/start` adds a user every time, an upload adds a message, and a press never adds a session |
| TelegramBot.RunKeepsUploads | deepseek_python_20251015_f33cc7.py:124-131 | every session keeps holding its own user's upload file |
| TelegramBot.ExpiredThenPhotoFirst | deepseek_python_20251015_f33cc7.py:173-182 | after "expired" the user's next press gets "send a photo first" |
| TelegramBot.FormatTokenStrips | deepseek_python_20251015_f33cc7.py:413 | `replace("convert_", "")` on `convert_` + a name shorter than the prefix gives the name back |
| TelegramBot.FormatName | deepseek_python_20251015_f33cc7.py:413 | the format name is the token with `convert_` removed, upper-cased |
| TelegramBot.ConvertRoute | deepseek_python_20251015_f33cc7.py:410-425 | a `convert_` token whose stripped, lowered name is `f` converts to `f`, as a document exactly for png |
| TelegramBot.UploadThenPress | deepseek_python_20251015_f33cc7.py:131-182 | after an upload whose file exists, the next press reaches the dispatch on that file |
| TelegramBot.ConvertTokenRoute | deepseek_python_20251015_f33cc7.py:410-431 | `convert_<f>` with `f` lower-case and shorter than the prefix converts to `f`, as a document exactly when `f` is png |
| WebhookServer.HandleStart | webhook_server.py:195-224 | the welcome text always goes out; a chat is recorded and counted only the first time; the invariant `users == |chats|` is kept |
| WebhookServer.Download | webhook_server.py:238-239 | the download counts as failed exactly when no path or an empty one comes back |
| WebhookServer.HandlePhoto | webhook_server.py:226-275 | an empty list gets the generic error reply and a failed download the download error, both changing nothing; a success overwrites the user's entry, bumps `photos_processed` and `messages_processed` by one, and sends the main menu |
| WebhookServer.RouteOf | webhook_server.py:300-330 | a processor runs exactly for `remove_bg` (remove.bg) and the four `resize_` table tokens; every other token is ignored |
| WebhookServer.HandleCallback | webhook_server.py:277-333 | the press is answered first; a missing, empty or vanished photo gets exactly "expired"; calls act only on the user's existing stored file |
| WebhookServer.Step | webhook_server.py:371-389 | `/start` and `/help` go to the start handler; other texts, `/status` included, do nothing; a press never changes state; the counters invariant is kept |
| WebhookServer.Webhook | webhook_server.py:362-395 | the reply is ok exactly when the body is not empty, and an empty body changes nothing |
| WebhookServer.Greeted | webhook_server.py:379-382 | a chat is among the greeters exactly when some update in the run is its `/start` or `/help` |
| WebhookServer.RunVisits | webhook_server.py:222-224 | after a run the recorded chats are the earlier ones plus the greeters |
| WebhookServer.RunKeepsCounted | webhook_server.py:222-271 | `users` equals the number of recorded chats and `messages_processed` equals `photos_processed` over any run |
| WebhookServer.RunCountsUploads | webhook_server.py:244-245 | `photos_processed` grows by the number of successful downloads |
| WebhookServer.UsersAreDistinctGreeters | webhook_server.py:222-224 | from a fresh server, `users` is the number of distinct chats that sent `/start` or `/help` |
| WebhookServer.RunStoresDownloads | webhook_server.py:238-244 | every stored photo stays a non-empty path a download returned |
| WebhookServer.MenuButtonsBesideRemoveBgIgnored | webhook_server.py:300-330 | of the six buttons sent after an upload, all but "Remove BG" are ignored |
| WebhookServer.MobileResizeIgnored | webhook_server.py:311-319 | `resize_mobile` is ignored |
| WebhookServer.ExpiredStaysExpired | webhook_server.py:292-298 | while the user's file is missing, every press gets "expired" and a run of presses leaves the state unchanged |
| RouterAgreement.LandscapeResizeAgrees | webhook_server.py:312-317 | each landscape size button resizes to the same box in all three front ends |
| RouterAgreement.MobileResizeDiffers | deepseek_python_20251015_f33cc7.py:296-302 | `resize_mobile` resizes to 720x1280 in the two long-running bots and is ignored behind the webhook |
| RouterAgreement.RemoveBackgroundDiffers | deepseek_python_20251015_f33cc7.py:352 | "Remove BG" calls remove.bg in the polling bot and the webhook, and its processor's own `remove_background` in the other bot |
| RouterAgreement.PngDeliveryDiffers | deepseek_python_20251015_f33cc7.py:413-425 | the PNG button converts to `PNG` and sends a photo in the polling bot, converts to `png` and sends a document in the other bot, and is ignored behind the webhook |
| RouterAgreement.LastIsLargestWhenAscending | deepseek_python_20251015_f33cc7.py:114 | when the sizes come smallest first, `photo[-1]` is the largest-area choice |
| RouterAgreement.LastNeedNotBeLargest | deepseek_python_20251015_f33cc7.py:114 | out of order the two choices differ |

## Left out

- Pillow resampling, filters and enhancers, `alpha_composite`/`blend`, OpenCV edge and contour detection, and rembg. These are foreign library calls. Contour detection appears only as the rectangle it yields, or its absence or failure.
- The multi-step upscaling loops of `enhance_quality_ai` and `enhance_quality`, and the float gradient lambdas of `generate_background_local`. They are float-driven and only resample pixels; the output size and the clamp are modelled.
- `enhance_quality` of ai_apis.py (the `original+` table) and the earlier `enhance_quality_ai` definition. Bot callers never reach the first, and the second is shadowed by the later definition.
- `ImageProcessor.enhance_quality`, `generate_background`, the blur/colour/pattern backgrounds, `get_image_info` and `cleanup_old_files`. These are filters, random colours, float rounding and wall-clock ages, with no integer logic beyond what is modelled.
- HTTP and Telegram I/O (`requests`, `api_request`, `download_photo`, `send_photo` including its file deletion), threads and asyncio, the Flask routes other than the webhook, and `setup_webhook`. Their results enter only through `Env`.
- File names drawn from `uuid` and timestamps. Output files of `AiImageProcessor` are not named; those of the other processors are.
- Message wording: each message is a `Notice` constructor.
- Updates that miss a field a handler reads (KeyError). The model's updates are well formed. The generic "an error occurred" replies of the outer handlers therefore never arise.
- app.py is not part of this model. It imports a class `ImageProcessor` that image_processor.py does not define.
- AiImageProcessor.CropBox: the golden ratio is the exact fraction 1618/1000; Python's `img_height * 1.618` and `img_width / 1.618` may differ from that floor by a pixel.
- AiImageProcessor.SmartCrop: the golden-ratio caveat of CropBox; and a box with a zero side (a 1x1 image cut to 1.618:1 gives 1x0) is saved like any other, since whether Pillow's JPEG writer refuses an empty image is not modelled.
- AiImageProcessor.CropBoxAi: `int(width * 0.15)` and the other percentages are exact floors; the binary double products can come out one lower at exact multiples (see AiImageProcessor.Percent).
- AiImageProcessor.SmartCropAi: the percentage caveat of CropBoxAi; and, as for SmartCrop, a box with a zero side (the `face` box of a 1x1 image) is saved like any other.
- Geometry.FitInside: the floored side is the exact floor of `t * ow / oh` (or `t * oh / ow`). The program computes the ratio in binary doubles first, and at an exact integer the product can come out just below it and floor one lower: 13x45 into 7680x4320 gives a width of 1247 in the program, where the exact value is 1248.
- Geometry.FitInsideExactRatio: holds in exact arithmetic only; in doubles 1280x854 into 2560x1708 gives 2560x1707.
- Geometry.FitInsideZero: decides the zero side on the exact floor; a side the doubles floor one lower can reach zero one step earlier.
- AiImageProcessor.ResizeDims: `int(height * aspect_ratio)` and `int(width / aspect_ratio)` are the exact floors; the doubles can come out one pixel lower at an exact integer, as for Geometry.FitInside.
- AiImageProcessor.ResizeImage: the same one-pixel caveat through ResizeDims.
- AiImageProcessor.EnhanceDims: the same one-pixel caveat (13x45 at `8k` gives 1247x4320 in the program); and the JPEG save of `enhance_quality_ai`, which refuses LA, PA, I and F as in ResizeImage, is not modelled.
- AiImageProcessor.EnhanceOriginalDoubles: holds in exact arithmetic only; in doubles `original` on 1280x854 gives 2560x1707.
- AiImageProcessor.Percent: `int(n * 0.15)` and the like are taken as the exact floor of `n * p / 100`; the double `0.7` is slightly below 7/10, so `int(h * 0.7)` is one lower at h = 90, 170 and others.
- AiImageProcessor.MarginBox: the same caveat for its 15% margins.
- AiImageProcessor.FaceBox: the same caveat for its 80%, 10% and 70% sides.
- AiImageProcessor.ProductBox: the same caveat for its 10% padding.
- FullImageProcessor.ResizeDims: `int(width / original_ratio)` and `int(height * original_ratio)` are the exact floors; the doubles can come out one lower at an exact integer: 7x5 into 1280x720 gives a width of 1007 in the program, where the exact value is 1008.
- FullImageProcessor.ResizeImage: the same one-pixel caveat through ResizeDims.
- SimpleImageProcessor.ResizeDims: `int(ow * min(tw/ow, th/oh))` is the exact floor; in doubles 5663x3145 into 720x1280 gives 719x399, where the exact value is 720x399.
- ResizeAgreement.ResizeVariantsAgree: the three resizes agree in exact arithmetic only; in doubles 5663x3145 into 720x1280 gives 720x399, 720x399 and 719x399.
- Strings.Lower: maps ASCII letters only; Python's full Unicode mapping is not modelled, and there `'İ'.lower()` has two characters.
- Strings.Upper: maps ASCII letters only; in Python `'ß'.upper()` is `'SS'`, so the length can change.
- Strings.LowerOfUpper: holds under the ASCII mapping only; in Python `'ß'.upper().lower()` is `'ss'`, not `'ß'`.
- Saving.WriterOfExtension: only the JPEG, PNG and WebP writers are modelled. Any other extension Pillow knows (`.gif`, `.bmp`, `.tiff`, …) counts as one without a writer, so such a save fails in the model.
- Saving.Save: the WebP writer is taken to accept every mode.
- SimpleImageProcessor.SmartCrop: the open and save failures of image_processor.py are not modelled; the member gives the box and the name only.
- SimpleImageProcessor.ConvertFormat: the same; the member gives the writer, the mode and the name only.
- SimpleImageProcessor.RemoveBackground: the same; the member gives the mode and the name only.
- `resize_image`, `remove_background`, `generate_background` and `enhance_quality` of the fallback `SimpleImageProcessor` in deepseek_python_20251015_fc208f.py. The first repeats the `min`-ratio formula of SimpleImageProcessor.ResizeDims; the others copy or enhance the image under `no_bg`, `new_bg` and `enhanced`; all four return the input path on an error, as the modelled crop and conversion do.
- LocalBackground.RemoveBackgroundLocal: takes the image after its conversion to RGBA; the conversion itself is Pillow's.
- SimpleTelegramBot.HandlePhoto: a failed `getFile` or download is one `Env` case; the kind of exception is not modelled.
- TelegramBot.Step: the python-telegram-bot handler registration is assumed to route `/start`, `/help`, `/status`, photos and presses as the event constructors say.

## Findings

| source | as written | input that shows it | evidently intended | confidence | as-written member | corrected member |
|---|---|---|---|---|---|---|
| deepseek_python_20251015_fc208f.py:558-565 | `SimpleImageProcessor.convert_format` cuts the `_get_output_path` name at its last dot and appends `.<format>`. When the input has no extension but a dot in its stem, the cut lands inside the stem, and the name left has no extension | converting `uploads/.hidden` to `png` computes `processed/.png`; `splitext` finds no extension there, so `save` raises and the input comes back unconverted | the output is `processed/<stem>_converted.<format>` (`processed/.hidden_converted.png`) | not executed | FallbackImageProcessor.DotFileIsNotConverted | FallbackImageProcessor.DotFileConvertedAsIntended |
