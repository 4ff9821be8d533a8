# Background removal for the SpeedRota logo, in Dafny

`remove_bg.py` loads the logo, converts it to RGBA and takes its pixels as a
flat list of (red, green, blue, alpha) tuples. It walks that list once and
builds a new list. A pixel whose red, green and blue channels are all strictly
above 230 becomes fully transparent white, `(255, 255, 255, 0)`. Every other
pixel is copied through unchanged, alpha included. The new list is written
back into the image with `putdata`.

`remove_bg.dfy` (module `RemoveBg`) models that transform:

- `Pixel` is the RGBA tuple, with unbounded integer channels. `InRange` states
  the 0..255 range that the RGBA conversion guarantees.
- `IsBackground` is the near-white test and `ProcessPixel` the per-pixel rule.
- `ProcessedData` is the reference definition of the output list: one
  processed pixel per input pixel, built recursively in input order.
- `RemoveBackground` is the `for` loop that appends to `new_data`, proved
  equal to `ProcessedData`.

## Model

| member | source | states |
|---|---|---|
| RemoveBg.ProcessPixel | remove_bg.py:9-12 | the output is transparent white exactly when red, green and blue all exceed 230; a pixel that is not replaced is returned in all four channels; the background classification and the alpha (or zero) are kept |
| RemoveBg.ProcessedData | remove_bg.py:7-12 | the output list has exactly as many pixels as the input, one appended per input pixel |
| RemoveBg.ProcessedDataAt | remove_bg.py:7-12 | position i of the output is the rule applied to position i of the input, and to nothing else |
| RemoveBg.RemoveBackground | remove_bg.py:5-12 | the loop that appends one pixel per input pixel yields exactly the reference list `ProcessedData(data)` |
| RemoveBg.BackgroundBecomesTransparent | remove_bg.py:9-10 | a pixel with R, G and B all above 230 becomes (255, 255, 255, 0) |
| RemoveBg.ForegroundUnchanged | remove_bg.py:9-12 | a pixel with some colour channel at most 230 is passed through unchanged in all four channels |
| RemoveBg.ThresholdIsStrict | remove_bg.py:9 | a channel value of exactly 230, in red, green or blue, does not make a pixel background |
| RemoveBg.AlphaIgnored | remove_bg.py:9 | changing only the alpha of a pixel never changes whether it is background or whether it is replaced |
| RemoveBg.ProcessPixelIdempotent | remove_bg.py:9-12 | applying the rule to its own result gives the same pixel |
| RemoveBg.ProcessPixelInRange | remove_bg.py:3-12 | a pixel with all channels in 0..255 stays in 0..255 |
| RemoveBg.Examples | remove_bg.py:9-12 | (240, 245, 250, 255) becomes (255, 255, 255, 0) and (10, 20, 30, 255) is unchanged |
| RemoveBg.ProcessedDataAppend | remove_bg.py:7-12 | processing a concatenation is the concatenation of the processed parts, so the relative order of pixels is preserved |
| RemoveBg.ProcessedDataIdempotent | remove_bg.py:7-12 | running the transform on its own output returns that output unchanged |
| RemoveBg.ProcessedDataReplacesOnlyBackground | remove_bg.py:7-12 | in the output list, a position is (255, 255, 255, 0) exactly when the input pixel there is background; every other position holds the input pixel unchanged |
| RemoveBg.ProcessedDataInRange | remove_bg.py:3-12 | if every input pixel is in 0..255 (the RGBA guarantee), so is every output pixel |

## Left out

- Loading and converting the image (`remove_bg.py:3`), saving it as PNG (`remove_bg.py:15`) and the final message (`remove_bg.py:16`): file I/O and JPEG/PNG coding inside the image library. The model takes the pixel list as its input instead, and `InRange` stands for what the RGBA conversion guarantees.
- `img.putdata` (`remove_bg.py:14`): the image library's internal pixel buffer is not visible, so the model's output is the new pixel list itself.
- `convert_docx_to_pdf.py` as a whole: it only tries the external converters docx2pdf, LibreOffice and Pandoc in turn through library and subprocess calls with hardcoded paths, and has no data logic of its own.
