# Card identification pipeline — a Dafny model

This project models the core of the card-detection service in `utils.py`: how a camera
frame's contours are filtered down to card outlines, how each outline's corners are put in
order and paired with the corners of a fixed 733 x 1024 output image, how a card set's
catalog is compiled (card id from the image's file name, fingerprint written as 16
hexadecimal digits), and how a card's fingerprint is matched against that catalog by
Hamming distance, the first record at the minimum distance winning.

Modules, one per component:

- `Fingerprints` (Fingerprints.dfy): the 64-bit fingerprint and its Hamming distance.
- `HexCodec` (HexCodec.dfy): the hexadecimal text of a fingerprint and its reading back.
- `CardSet` (CardSet.dfy): card id from a file name; compiling the set's catalog records.
- `Matcher` (Matcher.dfy): the scan in `identify_card`.
- `Contours` (Contours.dfy): the rectangle filter `get_rectangular_contours`.
- `Perspective` (Perspective.dfy): `fix_contour`, the corner pairing of `perspective_transform_card`, and `extract_card_images_from_image`.
- `Pipeline` (Pipeline.dfy): detection followed by one warp per outline.
- `Wrappers` (Wrappers.dfy): the `Option` type.

Choices the source leaves open, and where the model follows the code:

- A fingerprint is the pHash's 8 x 8 boolean matrix flattened row by row. Its text packs the
  bits most significant first: digit k holds bits 4k to 4k+3, bit 4k as the digit's high bit.
  The 16 digits are therefore the zero-padded hexadecimal numeral of the number whose binary
  numeral is the 64 bits (`HexCodec.EncodeIsPaddedHexNumeral`). Encoding writes lower-case
  digits; decoding accepts either case.
- `fix_contour` calls `np.roll(contour, 2)` without an axis. On the 4 x 1 x 2 outline array this
  rolls the flat list of 8 coordinates by two entries: every corner moves one place on, giving
  `[p3, p0, p1, p2]`. The model rolls the flattened coordinates (`Perspective.Roll`) and proves
  the one-corner rotation: `np.roll(contour, 2)` shifts two array entries, which is one corner,
  not two.
- The two edge lengths are compared as squared integer distances. Corner coordinates are
  integers bounded by the frame size, so comparing Euclidean norms gives the same answer.
- On an empty catalog the scan ends with `min_dist = -1` and `matched_card = ''`. The code has
  no separate "catalog unavailable" outcome, and the model keeps the sentinels.
- The catalog stores hashes as text, and the scan decodes each one as it reaches it. A hash
  the model cannot read (anything but 16 ASCII hexadecimal digits) ends the scan with
  `MalformedHash(index)` for the first such record. The library raises on most such text, but
  it also accepts the lenient forms listed under "## Left out", on which the source carries on.

## Model

| member | source | states |
|---|---|---|
| `Fingerprints.Hamming` | utils.py:134 | the distance between two hashes is never more than their bit length |
| `Fingerprints.HammingCountsDifferences` | utils.py:134 | the distance is the number of bit positions at which the two hashes differ |
| `Fingerprints.HammingSymmetric` | utils.py:134 | comparing a with b or b with a gives the same distance |
| `Fingerprints.HammingZeroIffEqual` | utils.py:134 | the distance is zero exactly when the two hashes are equal bit for bit |
| `Fingerprints.HammingTriangle` | utils.py:134 | the distance obeys the triangle inequality, so it is a metric on fingerprints |
| `HexCodec.DigitValue` | utils.py:133 | a character has a digit value exactly when it is a hexadecimal digit of either case, and the value is below 16 |
| `HexCodec.Encode` | utils.py:62 | the text written for a hash is 16 characters, each a lower-case hexadecimal digit |
| `HexCodec.Decode` | utils.py:133 | a stored text reads back as a fingerprint exactly when it is 16 hexadecimal digits |
| `HexCodec.DecodeEncode` | utils.py:133 | reading back the text written for a hash gives the same 64 bits |
| `HexCodec.EncodeDecode` | utils.py:62 | every readable text is, up to letter case, the text written for the hash it reads as |
| `HexCodec.EncodeIsPaddedHexNumeral` | utils.py:62 | the written text is the 16-digit zero-padded hexadecimal numeral of the hash's binary value, which fits in 64 bits |
| `HexCodec.DecodeReadsHexNumeral` | utils.py:133 | reading a text lays out its hexadecimal value as the 64 bits of the hash |
| `CardSet.CardId` | utils.py:61 | a name without '.' is its own id; otherwise the id is the part before the last '.', and no '.' follows it |
| `CardSet.CardIdOfSavedImage` | utils.py:61 | an image saved as id + "." + extension gives back exactly that id, even when the id contains dots |
| `CardSet.CompileCardSetHashes` | utils.py:56-63 | one record per image, in listing order, holding the image's card id and its hash's text |
| `CardSet.CompiledHashesDecode` | utils.py:56-63 | every hash text in a compiled catalog reads back as the fingerprint of its image |
| `Matcher.IdentifyCard` | utils.py:127-137 | empty catalog: -1 and ''; otherwise the first record at the minimum distance, with 0 <= min_dist <= 64; an unreadable hash ends the scan at the first such record |
| `Matcher.FirstNearestUnique` | utils.py:132-137 | only one record can be the first at the minimum distance, so the match is determined by the catalog and the query |
| `Matcher.CompiledCatalogMatchesImages` | utils.py:132-134 | against a compiled catalog no hash is unreadable, and each distance is the one to the image's own fingerprint |
| `Contours.KeptIndices` | utils.py:186-194 | the kept positions are increasing, each kept contour has area above 4000 and a 4-corner approximation, and every such contour is kept |
| `Contours.RectangularContours` | utils.py:186-194 | the output lists the approximation of each kept contour, in input order, one per kept contour |
| `Contours.RectangularContoursAreCards` | utils.py:188-193 | every returned outline has 4 corners and approximates an input contour of area strictly above 4000 |
| `Contours.NoCardShapedNoCandidates` | utils.py:186-194 | when no contour passes the test, nothing is returned |
| `Contours.GetRectangularContours` | utils.py:176-194 | the loop returns exactly the filtered approximations, each with 4 corners |
| `Perspective.Roll` | utils.py:255 | the flat coordinate array moves right by the shift, the last entries wrapping round to the front |
| `Perspective.FixContourRotates` | utils.py:249-256 | a first edge shorter than the second keeps the outline; otherwise the result is p3, p0, p1, p2 |
| `Perspective.FixContourIsRotation` | utils.py:249-256 | the result is the outline or its rotation by one corner, so the same four corners |
| `Perspective.FixContourShortEdgeFirst` | utils.py:252-255 | on a parallelogram the result's first edge is no longer than its second |
| `Perspective.PerspectiveTransformCard` | utils.py:228-234 | the output image is always 733 x 1024 and four corners are paired with four targets |
| `Perspective.WarpCornerPairing` | utils.py:230-232 | normalised corners 0, 1, 3, 2 go to (0,0), (733,0), (0,1024), (733,1024), stated in terms of the detected outline's corners |
| `Perspective.WarpUsesEveryCorner` | utils.py:230-231 | the warp uses each corner of the outline exactly once |
| `Perspective.WarpShortSideIsWidth` | utils.py:228-232 | on a parallelogram, the side sent to the 733-pixel top edge is no longer than the side sent to the 1024-pixel right edge |
| `Perspective.ExtractCardImages` | utils.py:206-210 | one warp per outline, in order, each producing a 733 x 1024 image |
| `Pipeline.FindCardWarps` | utils.py:111-112 | one 733 x 1024 warp per detected outline, in detection order, and none for a frame without card-shaped contours |

## Left out

- Network access: the set and card queries to the card API, image downloads, the API key read from the environment (`build_sets_hashes`, `download_card_set_images`, `download_card_image`, the card lookup after matching); they are I/O.
- File-system access: listing the set folder, opening images, writing and reading the catalog JSON. The matcher takes the catalog as a parameter, and compiling takes the listed images with their hashes.
- Matcher.IdentifyCard: the printing of the result and the card lookup that follow the scan are not modelled; they are output and network I/O.
- The pHash computation (grayscale, resize, discrete cosine transform, median threshold) is library code over floating point; a fingerprint is taken as given.
- HexCodec.Decode: accepts exactly 16 ASCII hexadecimal digits; the library's reader goes through `int(text, 16)`, which also takes a leading `+` sign, a `0x` prefix, surrounding whitespace, underscores, non-ASCII decimal digits and other lengths (such as `"00"` followed by 16 digits); those lenient forms are not modelled, and `Matcher.IdentifyCard` stops with `MalformedHash` on them where the source goes on scanning.
- HexCodec.DigitValue: gives a value only to the ASCII digits `0`-`9`, `a`-`f` and `A`-`F`; `int(text, 16)` also reads non-ASCII decimal digits (Unicode category Nd, such as Arabic-Indic digits), which are not modelled because their table is not part of this model.
- Fingerprints.Hamming: hashes of different shapes, which the library refuses to compare, cannot arise, because decoding yields only 64-bit fingerprints.
- OpenCV geometry: `contourArea`, `arcLength` and `approxPolyDP` are parameters of the detector (`Contours.ContourGeometry`), so it is proved for any functions they compute; frame resizing, grayscale conversion, thresholding and `findContours` are not modelled; the contours come in as input.
- Perspective.PerspectiveTransformCard: computing the homography and resampling the image are floating-point library code; the model states the corner pairing and the output size they are given.
- Perspective.FixContour: compares squared integer distances instead of floating-point norms; they agree for integer coordinates of frame size.
- Perspective.Roll: only shifts up to the array's length are modelled (numpy reduces larger ones modulo the length); the source rolls 8 entries by 2.
- Perspective.ExtractCardImages: requires every outline to have 4 corners, which the detector guarantees to its only caller.
- Displaying images and drawing contours are UI side effects.
- The YOLO experiment under `yolo-scrapped/` (dataset download and shuffling, training, webcam inference) is outside the identification pipeline.
