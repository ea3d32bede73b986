# Verified model of an image viewer's arithmetic, bit-level and naming core

This project models in Dafny the self-contained logic of a Qt image viewer and of the codec libraries it bundles, and proves properties of that model. Each module models one part of the core; Common and UnsignedBits hold shared string and bit helpers that model no source file of their own:

- **PrintPlacement** (`print_dialog.dfy`): the print dialog.
  - It converts lengths between printer units, always through points (the multiplier of a unit is its number of points).
  - It computes the rotated bounds of the image, its orientation, its natural and preferred size, and the page orientation chosen by auto-rotate.
  - `updateImageGeometry` fits the print rectangle into the paper or page rectangle, with centering and aspect lock.
  - The slots that edit width, height, resolution and the four edges are methods of a `PrintDialog` class that holds the print rectangle and the centering flags.
- **HuffmanBits**, **HuffmanTree** and **HuffmanDecode** (`huffman.dfy`, `huffman_tree.dfy`, `huffman_decode.dfy`): LERC's Huffman codec.
  - `PushValue` packs codes of 1 to 32 bits MSB-first into an array of 32-bit words.
  - A read-back round trip is proved for the fitting case and for the case where the code splits across two words.
  - Also modelled: the tree nodes, `TreeToLUT` (proved against a table-filling specification), `FreeTree`, `GetIndexWrapAround`, and `DecodeOneValue` with its table path and its walk down the tree.
- **ExifValues** and **ExifConvert** (`exif_values.dfy`, `exif_convert.dfy`): Exiv2's metadata converter.
  - The overwrite, force and erase policy of target preparation.
  - The table-driven `cnvToXmp` and `cnvFromXmp`.
  - The Flash, version and GPS-version converters in both directions and the XMP-to-Exif array converter, with the Flash round trip through XMP.
  - `getTextValue`'s language-qualifier stripping, `swapBytes`, and the direction decision of `syncExifWithXmp`.
  - The converter is a class whose maps and flags its methods update.
- **TgaHeader** (`tga_header.dfy`): the little-endian fields of a TGA header.
- **ExrCompression** (`exr_compression.dfy`): OpenEXR's worst-case compressed size, with its overflow saturation, and the mapping of zlib results onto OpenEXR results.
- **JasPerRender** (`jasper_render.dfy`): JasPer's component sampling and its reduction of samples to 8 bits, with C's truncating division. The renderers take the reduction as a parameter: `AsWritten` is the program's division by 257, `Corrected` the division by 256 that the Findings table argues for; every renderer contract holds for both.
- **WmfPixels** (`wmf_pixels.dfy`): the WMF provider's validity, its scale bounds and its GD pixel unpacking.
- **LercDecode** (`lerc_decode.dfy`): LERC's band and dimension layouts, the mask-to-alpha rule, the error names and the dispatch on data types.
- **LcmsTestbed** (`lcms_testbed.dfy`): the Little CMS test bed.
  - The debugging allocator is a class. Its invariant ties `TotalMemory` to the sizes of the live blocks, modulo 2^32.
  - Also modelled: the fake thread identifiers, `BuildTable`'s ramps, the `Fn8D*` averages (proved to be weighted means), `IsGoodWordPrec`, and the `Check` counters.
- **QImageFormats** and **WicFormats** (`qimage_formats.dfy`, `wic_formats.dfy`): the format lists of the Qt and WIC decoders.
  - The Qt list is a sorted set of lower-cased names.
  - The WIC list holds the normalised registry extensions without duplicates, with the built-ins in front.
  - Also modelled: the Qt decoder's choice between automatic transform and Exif orientation, and whether WIC is available.
- **ThemeUtil** (`theme_utils.dfy`): lightness and dark-theme detection, icon path naming, and how style sheets are concatenated.
- **RawQuality** (`raw_quality.dfy`): the RAW plug-in's documented encoding of its quality setting, as a bit field for negative values and a range table for 0 to 100.

`common.dfy` (module **Common**) and `bits.dfy` (module **UnsignedBits**) hold shared helpers:

- an option type, powers of two and decimal rendering;
- ASCII lower-casing;
- C's unsigned 32-bit shifts and bitwise or, over integers.

## Model

| member | source | states |
|---|---|---|
| PrintPlacement.Multiplier | src/ImageViewer/src/GUI/Dialogs/PrintDialog.cpp:131-151 | every unit is a positive number of points, so a conversion never divides by zero |
| PrintPlacement.Convert | src/ImageViewer/src/GUI/Dialogs/PrintDialog.cpp:109-113 | every unit being a positive number of points, a conversion keeps the sign of the value and gives zero only for zero |
| PrintPlacement.ConvertIdentity | src/ImageViewer/src/GUI/Dialogs/PrintDialog.cpp:109-113 | converting a value to its own unit leaves it unchanged |
| PrintPlacement.ConvertRoundTrip | src/ImageViewer/src/GUI/Dialogs/PrintDialog.cpp:109-113 | converting to another unit and back gives the value again |
| PrintPlacement.ConvertTransitive | src/ImageViewer/src/GUI/Dialogs/PrintDialog.cpp:109-113 | converting through an intermediate unit equals converting directly |
| PrintPlacement.Normalized | src/ImageViewer/src/GUI/Dialogs/PrintDialog.cpp:56 | the normalized rectangle has non-negative sides and the same centre |
| PrintPlacement.ItemBounds | src/ImageViewer/src/GUI/Dialogs/PrintDialog.cpp:52-60 | no item gives the null rectangle; rotating about the centre keeps the centre |
| PrintPlacement.QuarterTurnBounds | src/ImageViewer/src/GUI/Dialogs/PrintDialog.cpp:52-60 | a quarter or three-quarter turn swaps width and height, a half or full turn keeps them |
| PrintPlacement.ItemOrientation | src/ImageViewer/src/GUI/Dialogs/PrintDialog.cpp:62-68 | Vertical exactly when there is no item or the rotated bounds are at least as tall as wide |
| PrintPlacement.SquareIsVertical | src/ImageViewer/src/GUI/Dialogs/PrintDialog.cpp:62-68 | a square item is Vertical at every turn |
| PrintPlacement.ItemSizeInPoints | src/ImageViewer/src/GUI/Dialogs/PrintDialog.cpp:70-81 | at 72 dpi an item's size in points is its bounds' size |
| PrintPlacement.ItemSize | src/ImageViewer/src/GUI/Dialogs/PrintDialog.cpp:76-81 | a side of the item size is positive exactly when that side of the item bounds is |
| PrintPlacement.AvailableItemSize | src/ImageViewer/src/GUI/Dialogs/PrintDialog.cpp:83-98 | with a printer and a positive item size the result fits an available area of non-negative size, and with keep-aspect it has the item's shape |
| PrintPlacement.PreferredItemSize | src/ImageViewer/src/GUI/Dialogs/PrintDialog.cpp:100-107 | with a printer, a positive item size and a non-negative available area the preferred size fits that area |
| PrintPlacement.ScaledFits | src/ImageViewer/src/GUI/Dialogs/PrintDialog.cpp:95-96 | a size scaled to a target lies inside the target |
| PrintPlacement.ScaledKeepsShape | src/ImageViewer/src/GUI/Dialogs/PrintDialog.cpp:95-96 | scaling with KeepAspectRatio keeps the width-to-height ratio |
| PrintPlacement.PreferredFits | src/ImageViewer/src/GUI/Dialogs/PrintDialog.cpp:83-107 | with a printer the preferred size fits the available area and has the item's shape |
| PrintPlacement.NaturalSizeWhenItFits | src/ImageViewer/src/GUI/Dialogs/PrintDialog.cpp:100-107 | an item that fits the available area is offered at its natural size |
| PrintPlacement.PageOrientationAfter | src/ImageViewer/src/GUI/Dialogs/PrintDialog.cpp:644-659 | with auto-rotate the page is portrait exactly for a vertical item; otherwise the printer keeps its orientation |
| PrintPlacement.RadioButtons | src/ImageViewer/src/GUI/Dialogs/PrintDialog.cpp:663-664 | exactly one radio button is checked, the portrait one for a portrait page |
| PrintPlacement.InitialRect | src/ImageViewer/src/GUI/Dialogs/PrintDialog.cpp:694-705 | an empty print rectangle starts at the preferred size, centred on each selected axis and at the available area's corner on the others |
| PrintPlacement.Resize | src/ImageViewer/src/GUI/Dialogs/PrintDialog.cpp:711-731 | a resized rectangle has the target size, its centre kept on centred axes and its corner on the others |
| PrintPlacement.Overflow | src/ImageViewer/src/GUI/Dialogs/PrintDialog.cpp:707-719 | the overflow step never grows the rectangle |
| PrintPlacement.OverflowFits | src/ImageViewer/src/GUI/Dialogs/PrintDialog.cpp:707-719 | after the overflow step the rectangle fits the available size |
| PrintPlacement.AspectFixShrinks | src/ImageViewer/src/GUI/Dialogs/PrintDialog.cpp:721-732 | the aspect step never grows the rectangle |
| PrintPlacement.AspectFix | src/ImageViewer/src/GUI/Dialogs/PrintDialog.cpp:721-732 | without keep-aspect the rectangle is unchanged; with it and a positive preferred size the result has the preferred shape |
| PrintPlacement.Recenter | src/ImageViewer/src/GUI/Dialogs/PrintDialog.cpp:734-737 | size kept and each selected axis centred on the available area |
| PrintPlacement.Clamp | src/ImageViewer/src/GUI/Dialogs/PrintDialog.cpp:739-746 | size kept, left and top edges inside, and right and bottom edges inside whenever the side fits |
| PrintPlacement.ClampKeepsInside | src/ImageViewer/src/GUI/Dialogs/PrintDialog.cpp:739-746 | a rectangle already inside is not moved |
| PrintPlacement.GeometryInside | src/ImageViewer/src/GUI/Dialogs/PrintDialog.cpp:694-746 | whatever the print rectangle was, with a positive preferred size the result lies inside the available area |
| PrintPlacement.GeometryStable | src/ImageViewer/src/GUI/Dialogs/PrintDialog.cpp:694-746 | a rectangle that fits, has the preferred shape and is centred where asked is left unchanged |
| PrintPlacement.Geometry | src/ImageViewer/src/GUI/Dialogs/PrintDialog.cpp:694-746 | the fitted rectangle's left and top edges never lie outside the available area |
| PrintPlacement.ClearH | src/ImageViewer/src/GUI/Dialogs/PrintDialog.cpp:494-514 | editing a horizontal edge switches horizontal centering off and keeps vertical centering |
| PrintPlacement.ClearV | src/ImageViewer/src/GUI/Dialogs/PrintDialog.cpp:522-542 | editing a vertical edge switches vertical centering off and keeps horizontal centering |
| PrintPlacement.WidthEdit | src/ImageViewer/src/GUI/Dialogs/PrintDialog.cpp:411-423 | the width becomes the converted value, the corner stays, and with keep-aspect the height follows the item's shape |
| PrintPlacement.HeightEdit | src/ImageViewer/src/GUI/Dialogs/PrintDialog.cpp:425-437 | the height becomes the converted value, the corner stays, and with keep-aspect the width follows the item's shape |
| PrintPlacement.XResolutionEdit | src/ImageViewer/src/GUI/Dialogs/PrintDialog.cpp:445-457 | the width is the item's pixel width over the resolution, converted to points; with keep-aspect the shape is kept, without it the height is unchanged |
| PrintPlacement.YResolutionEdit | src/ImageViewer/src/GUI/Dialogs/PrintDialog.cpp:459-471 | the height is the item's pixel height over the resolution, converted to points; with keep-aspect the shape is kept, without it the width is unchanged |
| PrintPlacement.StateLabel | src/ImageViewer/src/GUI/Dialogs/PrintDialog.cpp:598-615 | the four known states have short names; any other state reads "Unknown (n)" |
| PrintPlacement.StateLabelsDiffer | src/ImageViewer/src/GUI/Dialogs/PrintDialog.cpp:598-615 | different printer states get different labels |
| PrintPlacement.PrintDialog.constructor | src/ImageViewer/src/GUI/Dialogs/PrintDialog.cpp:194 | a new dialog has no print rectangle and centres on both axes |
| PrintPlacement.PrintDialog.UpdateImageGeometry | src/ImageViewer/src/GUI/Dialogs/PrintDialog.cpp:667-746 | without a printer or item nothing changes; otherwise the rectangle becomes the fitted geometry of the old one |
| PrintPlacement.PrintDialog.UpdatePageInfo | src/ImageViewer/src/GUI/Dialogs/PrintDialog.cpp:622-665 | the rectangle is forgotten, the page orientation follows the item under auto-rotate, and the geometry is recomputed from scratch; without a printer or item the rectangle stays null |
| PrintPlacement.PrintDialog.OnWidthChanged | src/ImageViewer/src/GUI/Dialogs/PrintDialog.cpp:411-423 | the new rectangle is the fitted geometry of the width edit, or the edit itself without a printer or item; centering and orientation are kept |
| PrintPlacement.PrintDialog.OnHeightChanged | src/ImageViewer/src/GUI/Dialogs/PrintDialog.cpp:425-437 | the new rectangle is the fitted geometry of the height edit, or the edit itself without a printer or item; centering and orientation are kept |
| PrintPlacement.PrintDialog.OnXResolutionChanged | src/ImageViewer/src/GUI/Dialogs/PrintDialog.cpp:445-457 | the new rectangle is the fitted geometry of the horizontal resolution edit, or the edit itself without a printer or item; centering and orientation are kept |
| PrintPlacement.PrintDialog.OnYResolutionChanged | src/ImageViewer/src/GUI/Dialogs/PrintDialog.cpp:459-471 | the new rectangle is the fitted geometry of the vertical resolution edit, or the edit itself without a printer or item; centering and orientation are kept |
| PrintPlacement.PrintDialog.OnLeftChanged | src/ImageViewer/src/GUI/Dialogs/PrintDialog.cpp:490-502 | the left edge moves to the value, horizontal centering goes off, and the geometry is refitted, or the moved rectangle is kept as it is without a printer or item; the orientation is kept |
| PrintPlacement.PrintDialog.OnRightChanged | src/ImageViewer/src/GUI/Dialogs/PrintDialog.cpp:504-516 | the right edge moves to the value, horizontal centering goes off, and the geometry is refitted, or the moved rectangle is kept as it is without a printer or item; the orientation is kept |
| PrintPlacement.PrintDialog.OnTopChanged | src/ImageViewer/src/GUI/Dialogs/PrintDialog.cpp:518-530 | the top edge moves to the value, vertical centering goes off, and the geometry is refitted, or the moved rectangle is kept as it is without a printer or item; the orientation is kept |
| PrintPlacement.PrintDialog.OnBottomChanged | src/ImageViewer/src/GUI/Dialogs/PrintDialog.cpp:532-544 | the bottom edge moves to the value, vertical centering goes off, and the geometry is refitted, or the moved rectangle is kept as it is without a printer or item; the orientation is kept |
| PrintPlacement.PrintDialog.OnLoadDefaultsClicked | src/ImageViewer/src/GUI/Dialogs/PrintDialog.cpp:484-488 | the geometry is recomputed from an empty rectangle, which stays null without a printer or item; centering and orientation are kept |
| HuffmanBits.Push | src/ThirdParty/LERC/lerc-js_v4.0.4/src/LercLib/Huffman.h:226-253 | the words after storing a code; the stream keeps its length |
| HuffmanBits.Peek | src/ThirdParty/LERC/lerc-js_v4.0.4/src/LercLib/Huffman.h:155-164 | the n-bit window read at bitPos, continued into the next word when it crosses, is below 2^n |
| HuffmanBits.PushRoundTrip | src/ThirdParty/LERC/lerc-js_v4.0.4/src/LercLib/Huffman.h:155-256 | reading len bits MSB-first where PushValue wrote a value below 2^len gives the value back, in the fitting and the split case |
| HuffmanBits.PushKeepsEarlierBits | src/ThirdParty/LERC/lerc-js_v4.0.4/src/LercLib/Huffman.h:231-249 | the bits of the current word before bitPos are not changed by a push |
| HuffmanBits.PushLeavesTailClear | src/ThirdParty/LERC/lerc-js_v4.0.4/src/LercLib/Huffman.h:228-253 | after a push the bits from the new bit position on are zero, so the next push may OR into them |
| HuffmanBits.PushValue | src/ThirdParty/LERC/lerc-js_v4.0.4/src/LercLib/Huffman.h:219-256 | fails with nothing changed for a null pointer, a bit position outside 0..31 or a length outside 1..32; otherwise stores the code as Push describes, the new bit position is (bitPos + len) mod 32 and the word pointer moves one word exactly when bitPos + len reaches 32 |
| HuffmanTree.WrapInt32 | src/ThirdParty/LERC/lerc-js_v4.0.4/src/LercLib/Huffman.h:74-81 | the 32-bit wrap-around of int arithmetic: in range, congruent, and the identity on in-range values |
| HuffmanTree.NewLeaf | src/ThirdParty/LERC/lerc-js_v4.0.4/src/LercLib/Huffman.h:71-76 | a leaf for the symbol, with weight minus the count |
| HuffmanTree.NewInternal | src/ThirdParty/LERC/lerc-js_v4.0.4/src/LercLib/Huffman.h:78-84 | an internal node with value -1 above the two children, its weight the sum of theirs |
| HuffmanTree.Less | src/ThirdParty/LERC/lerc-js_v4.0.4/src/LercLib/Huffman.h:86 | nodes compare by weight |
| HuffmanTree.Child | src/ThirdParty/LERC/lerc-js_v4.0.4/src/LercLib/Huffman.h:69 | a leaf has no children; an internal node's bit selects child1 for 1 and child0 for 0 |
| HuffmanTree.TreeToLUT | src/ThirdParty/LERC/lerc-js_v4.0.4/src/LercLib/Huffman.h:88-103 | the recursion leaves the table and result FillTable describes |
| HuffmanTree.FillTableSucceeds | src/ThirdParty/LERC/lerc-js_v4.0.4/src/LercLib/Huffman.h:88-103 | the conversion succeeds exactly when no internal node sits at depth 32 |
| HuffmanTree.FillTableKeepsOthers | src/ThirdParty/LERC/lerc-js_v4.0.4/src/LercLib/Huffman.h:100 | symbols absent from the tree keep their table entries |
| HuffmanTree.FillTableLeafCode | src/ThirdParty/LERC/lerc-js_v4.0.4/src/LercLib/Huffman.h:88-103 | after success a leaf's entry is its depth and the code spelled by its path, child0 as 0 and child1 as 1 |
| HuffmanTree.FillTable | src/ThirdParty/LERC/lerc-js_v4.0.4/src/LercLib/Huffman.h:88-103 | the table keeps its length, whether or not the conversion succeeds |
| HuffmanTree.CodeValue | src/ThirdParty/LERC/lerc-js_v4.0.4/src/LercLib/Huffman.h:93-94 | below 32 bits the entry's code is the starting bits followed by the path in binary |
| HuffmanTree.FreeTree | src/ThirdParty/LERC/lerc-js_v4.0.4/src/LercLib/Huffman.h:105-121 | the counter drops by one per node released, every node but the root |
| HuffmanTree.GetIndexWrapAround | src/ThirdParty/LERC/lerc-js_v4.0.4/src/LercLib/Huffman.h:133 | an index below size is kept, one at or above loses size; within two laps the result is the index modulo size |
| HuffmanDecode.Advance | src/ThirdParty/LERC/lerc-js_v4.0.4/src/LercLib/Huffman.h:169-204 | moving k bits keeps bitPos in 0..31, counts exactly k bits and moves bytes from the remaining count only with the word |
| HuffmanDecode.Walk | src/ThirdParty/LERC/lerc-js_v4.0.4/src/LercLib/Huffman.h:192-214 | the tree walk stays inside the stream; on success the symbol is non-negative and at least one bit was read, on failure the value is -1 |
| HuffmanDecode.Decode | src/ThirdParty/LERC/lerc-js_v4.0.4/src/LercLib/Huffman.h:145-215 | a successful decode leaves the cursor in the stream with bitPos in 0..31 and never moves it back |
| HuffmanDecode.DecodeOneValue | src/ThirdParty/LERC/lerc-js_v4.0.4/src/LercLib/Huffman.h:145-215 | the member function computes what Decode describes |
| HuffmanDecode.WalkTree | src/ThirdParty/LERC/lerc-js_v4.0.4/src/LercLib/Huffman.h:192-214 | the loop computes what Walk describes |
| HuffmanDecode.DecodeRejects | src/ThirdParty/LERC/lerc-js_v4.0.4/src/LercLib/Huffman.h:149-160 | a null source, a bit position outside 0..31, fewer than 4 bytes, or fewer than 8 when the window crosses a word all fail with nothing changed |
| HuffmanDecode.TableHit | src/ThirdParty/LERC/lerc-js_v4.0.4/src/LercLib/Huffman.h:166-177 | on a table hit the symbol is the entry's, exactly its code length is consumed, and 4 bytes go with the word at bit 32 |
| HuffmanDecode.WalkFollowsPath | src/ThirdParty/LERC/lerc-js_v4.0.4/src/LercLib/Huffman.h:192-214 | bits that spell the path to a leaf make the walk return that leaf's symbol after one bit per edge |
| ExifValues.ToUint32 | src/ThirdParty/Exiv2/exiv2-0.28.5/src/convert.cpp:796 | toUint32() of a component lies in 0..2^32-1 |
| ExifValues.TextDatum | src/ThirdParty/Exiv2/exiv2-0.28.5/src/convert.cpp:768 | a value assigned from a string keeps that text as its single, readable component |
| ExifValues.NumberDatum | src/ThirdParty/Exiv2/exiv2-0.28.5/src/convert.cpp:805-806 | a value assigned from an unsigned number has one component that reads back as that number |
| ExifValues.BoolDatum | src/ThirdParty/Exiv2/exiv2-0.28.5/src/convert.cpp:804-808 | a value assigned from a bool has one component that reads back as 1 or 0 |
| ExifValues.ExifFlashParts | src/ThirdParty/Exiv2/exiv2-0.28.5/src/convert.cpp:804-808 | Fired is bit 0, Return bits 1-2, Mode bits 3-4, Function bit 5 and RedEyeMode bit 6; Return and Mode are below 4 |
| ExifValues.FlashRoundTrip | src/ThirdParty/Exiv2/exiv2-0.28.5/src/convert.cpp:1059-1120 | for every Flash value below 128, writing its five parts to XMP and rebuilding the value from them gives the same value |
| ExifValues.XmpFlashValue | src/ThirdParty/Exiv2/exiv2-0.28.5/src/convert.cpp:1059-1109 | whatever the parts hold, the rebuilt Flash value fits in the seven Flash bits |
| ExifValues.ByteChar | src/ThirdParty/Exiv2/exiv2-0.28.5/src/convert.cpp:766 | static_cast<char> keeps the low byte of a component |
| ExifValues.ExifVersionText | src/ThirdParty/Exiv2/exiv2-0.28.5/src/convert.cpp:764-768 | one character per component, each byte-sized component becoming the character with that code |
| ExifValues.XmpVersionText | src/ThirdParty/Exiv2/exiv2-0.28.5/src/convert.cpp:1016-1026 | no conversion iff the value is unreadable or shorter than 4 characters; otherwise the codes of the first four characters, separated by single spaces |
| ExifValues.VersionRoundTrip | src/ThirdParty/Exiv2/exiv2-0.28.5/src/convert.cpp:1016-1026 | an ASCII ExifVersion taken to XMP and back becomes the decimal codes of its first four components joined by spaces |
| ExifValues.ReplaceChar | src/ThirdParty/Exiv2/exiv2-0.28.5/src/convert.cpp:1047 | std::replace: same length, every occurrence replaced and every other character kept |
| ExifValues.XmpGPSVersionText | src/ThirdParty/Exiv2/exiv2-0.28.5/src/convert.cpp:1047 | the Exif text holds no '.' |
| ExifValues.ExifGPSVersionText | src/ThirdParty/Exiv2/exiv2-0.28.5/src/convert.cpp:779-785 | the '.'-joined text is empty exactly when GPSVersionID has no component |
| ExifValues.GPSVersionRoundTrip | src/ThirdParty/Exiv2/exiv2-0.28.5/src/convert.cpp:779-785 | GPSVersionID taken to XMP ('.'-joined) and back ('.' replaced by ' ') gives the components joined by single spaces |
| ExifValues.XmpArrayText | src/ThirdParty/Exiv2/exiv2-0.28.5/src/convert.cpp:905-917 | the elements joined with single spaces and no trailing space: one element is itself, more put a space after the first |
| ExifValues.StripLang | src/ThirdParty/Exiv2/exiv2-0.28.5/src/convert.cpp:1698-1705 | a text without a "lang=" prefix is kept; with one it becomes what follows the first space, or nothing when there is no space |
| ExifValues.FirstSpace | src/ThirdParty/Exiv2/exiv2-0.28.5/src/convert.cpp:1699 | find_first_of(' '): a space, with none before it |
| ExifValues.GetTextValue | src/ThirdParty/Exiv2/exiv2-0.28.5/src/convert.cpp:1690-1711 | a language alternative gives its x-default entry; without one, its only entry without the qualifier, and with any other count it fails; every other value gives its own text and readability |
| ExifValues.SwapPairs | src/ThirdParty/Exiv2/exiv2-0.28.5/src/convert.cpp:1478-1482 | the two bytes of every pair exchanged, the length kept |
| ExifValues.SwapTwice | src/ThirdParty/Exiv2/exiv2-0.28.5/src/convert.cpp:1470-1484 | swapping twice restores the string |
| ExifValues.SwapBytes | src/ThirdParty/Exiv2/exiv2-0.28.5/src/convert.cpp:1470-1484 | succeeds iff the length is even; an odd-length string is left alone, an even one has every pair of bytes exchanged in place |
| ExifConvert.PrepareMap | src/ThirdParty/Exiv2/exiv2-0.28.5/src/convert.cpp:530-538 | the target may be written exactly when it is absent or overwriting is allowed; on refusal the container is unchanged, otherwise only the target key is gone and every other entry keeps its value |
| ExifConvert.RemoveKey | src/ThirdParty/Exiv2/exiv2-0.28.5/src/convert.cpp:540-550 | the datasets that remain are exactly those whose key differs, and the list does not grow |
| ExifConvert.FindKey | src/ThirdParty/Exiv2/exiv2-0.28.5/src/convert.cpp:546 | findKey returns a position holding a dataset with the key |
| ExifConvert.EraseOne | src/ThirdParty/Exiv2/exiv2-0.28.5/src/convert.cpp:546-548 | erasing one matching dataset does not change what removing all of them yields |
| ExifConvert.RemoveKeyAppend | src/ThirdParty/Exiv2/exiv2-0.28.5/src/convert.cpp:540-550 | removal distributes over concatenation |
| ExifConvert.PrepareIptc | src/ThirdParty/Exiv2/exiv2-0.28.5/src/convert.cpp:540-550 | refusal exactly when the key is present and overwriting is not allowed; on success no dataset with the key is left and all other datasets stay |
| ExifConvert.RemoveAbsent | src/ThirdParty/Exiv2/exiv2-0.28.5/src/convert.cpp:541-543 | removing an absent key leaves the list unchanged |
| ExifConvert.Numbers | src/ThirdParty/Exiv2/exiv2-0.28.5/src/convert.cpp:765-767 | one number per component of the Exif value |
| ExifConvert.WriteXmp | src/ThirdParty/Exiv2/exiv2-0.28.5/src/convert.cpp:562-578 | writing a converted value keeps the flags and the IPTC list, and erases the Exif source exactly when erasing and the target was writable |
| ExifConvert.ExifValueStep | src/ThirdParty/Exiv2/exiv2-0.28.5/src/convert.cpp:562-578 | cnvExifValue keeps the flags and the IPTC list |
| ExifConvert.ExifVersionStep | src/ThirdParty/Exiv2/exiv2-0.28.5/src/convert.cpp:758-771 | cnvExifVersion keeps the flags and the IPTC list |
| ExifConvert.ExifGPSVersionStep | src/ThirdParty/Exiv2/exiv2-0.28.5/src/convert.cpp:773-788 | cnvExifGPSVersion keeps the flags and the IPTC list |
| ExifConvert.WriteFlashParts | src/ThirdParty/Exiv2/exiv2-0.28.5/src/convert.cpp:804-808 | the five Flash parts are added under Xmp.exif.Flash and no other key appears |
| ExifConvert.ExifFlashStep | src/ThirdParty/Exiv2/exiv2-0.28.5/src/convert.cpp:790-812 | a missing or empty Flash source changes nothing; flags and IPTC list are kept |
| ExifConvert.XmpValueStep | src/ThirdParty/Exiv2/exiv2-0.28.5/src/convert.cpp:858-878 | cnvXmpValue keeps the flags and the IPTC list |
| ExifConvert.XmpArrayStep | src/ThirdParty/Exiv2/exiv2-0.28.5/src/convert.cpp:899-921 | cnvXmpArray keeps the flags and the IPTC list |
| ExifConvert.XmpVersionStep | src/ThirdParty/Exiv2/exiv2-0.28.5/src/convert.cpp:1010-1031 | cnvXmpVersion keeps the flags and the IPTC list |
| ExifConvert.XmpGPSVersionStep | src/ThirdParty/Exiv2/exiv2-0.28.5/src/convert.cpp:1033-1051 | cnvXmpGPSVersion keeps the flags and the IPTC list |
| ExifConvert.XmpFlashStep | src/ThirdParty/Exiv2/exiv2-0.28.5/src/convert.cpp:1053-1121 | cnvXmpFlash keeps the flags and the IPTC list, and the only XMP key it may remove is the RedEyeMode part |
| ExifConvert.ApplyRule | src/ThirdParty/Exiv2/exiv2-0.28.5/src/convert.cpp:511-525 | a rule of the side this converter does not hold changes nothing |
| ExifConvert.UnselectedRulesSkipped | src/ThirdParty/Exiv2/exiv2-0.28.5/src/convert.cpp:511-525 | a table with no rule for this converter's side leaves the store as it was |
| ExifConvert.ApplyRulesAppend | src/ThirdParty/Exiv2/exiv2-0.28.5/src/convert.cpp:511-525 | running a concatenated table is running the first part, then the second from its result |
| ExifConvert.CopyKeepsSource | src/ThirdParty/Exiv2/exiv2-0.28.5/src/convert.cpp:758-812 | without erase, an Exif-to-XMP converter leaves Exif unchanged and an XMP-to-Exif converter leaves XMP unchanged |
| ExifConvert.NoOverwriteProtectsTarget | src/ThirdParty/Exiv2/exiv2-0.28.5/src/convert.cpp:530-560 | without overwrite, an existing target keeps its value for every built-in converter |
| ExifConvert.FlashRoundTripStore | src/ThirdParty/Exiv2/exiv2-0.28.5/src/convert.cpp:1053-1121 | a Flash value below 128 converted to XMP and back gives the Exif tag the same value, whatever the flags |
| ExifConvert.Converter.ForExif | src/ThirdParty/Exiv2/exiv2-0.28.5/src/convert.cpp:503-505 | an Exif/XMP converter that copies and may overwrite |
| ExifConvert.Converter.ForIptc | src/ThirdParty/Exiv2/exiv2-0.28.5/src/convert.cpp:507-509 | an IPTC/XMP converter that copies and may overwrite |
| ExifConvert.Converter.SetErase | src/ThirdParty/Exiv2/exiv2-0.28.5/src/convert.cpp:119-121 | only the erase flag changes |
| ExifConvert.Converter.SetOverwrite | src/ThirdParty/Exiv2/exiv2-0.28.5/src/convert.cpp:127-129 | only the overwrite flag changes |
| ExifConvert.Converter.PrepareExifTarget | src/ThirdParty/Exiv2/exiv2-0.28.5/src/convert.cpp:530-538 | the new Exif data and the result are those of PrepareMap with overwrite or force |
| ExifConvert.Converter.PrepareXmpTarget | src/ThirdParty/Exiv2/exiv2-0.28.5/src/convert.cpp:552-560 | the new XMP data and the result are those of PrepareMap with overwrite or force |
| ExifConvert.Converter.PrepareIptcTarget | src/ThirdParty/Exiv2/exiv2-0.28.5/src/convert.cpp:540-550 | the erase loop ends with the IPTC list PrepareIptc describes |
| ExifConvert.Converter.CnvExifValue | src/ThirdParty/Exiv2/exiv2-0.28.5/src/convert.cpp:562-578 | the new state is ExifValueStep of the old |
| ExifConvert.Converter.CnvExifVersion | src/ThirdParty/Exiv2/exiv2-0.28.5/src/convert.cpp:758-771 | the new state is ExifVersionStep of the old |
| ExifConvert.Converter.CnvExifGPSVersion | src/ThirdParty/Exiv2/exiv2-0.28.5/src/convert.cpp:773-788 | the new state is ExifGPSVersionStep of the old |
| ExifConvert.Converter.CnvExifFlash | src/ThirdParty/Exiv2/exiv2-0.28.5/src/convert.cpp:790-812 | the new state is ExifFlashStep of the old |
| ExifConvert.Converter.CnvXmpValue | src/ThirdParty/Exiv2/exiv2-0.28.5/src/convert.cpp:858-878 | the new state is XmpValueStep of the old |
| ExifConvert.Converter.CnvXmpArray | src/ThirdParty/Exiv2/exiv2-0.28.5/src/convert.cpp:899-921 | the new state is XmpArrayStep of the old |
| ExifConvert.Converter.CnvXmpVersion | src/ThirdParty/Exiv2/exiv2-0.28.5/src/convert.cpp:1010-1031 | the new state is XmpVersionStep of the old |
| ExifConvert.Converter.CnvXmpGPSVersion | src/ThirdParty/Exiv2/exiv2-0.28.5/src/convert.cpp:1033-1051 | the new state is XmpGPSVersionStep of the old |
| ExifConvert.Converter.CnvXmpFlash | src/ThirdParty/Exiv2/exiv2-0.28.5/src/convert.cpp:1053-1121 | the new state is XmpFlashStep of the old |
| ExifConvert.Converter.Invoke | src/ThirdParty/Exiv2/exiv2-0.28.5/src/convert.cpp:299-523 | calling a table entry's member function performs that converter's step |
| ExifConvert.Converter.Convert | src/ThirdParty/Exiv2/exiv2-0.28.5/src/convert.cpp:511-525 | the new state is the table applied in order in the chosen direction |
| ExifConvert.Converter.WriteExifDigest | src/ThirdParty/Exiv2/exiv2-0.28.5/src/convert.cpp:1298-1303 | both digests are written into XMP |
| ExifConvert.Converter.SyncExifWithXmp | src/ThirdParty/Exiv2/exiv2-0.28.5/src/convert.cpp:1305-1334 | the new state is SyncResult of the old |
| ExifConvert.FlashValueOf | src/ThirdParty/Exiv2/exiv2-0.28.5/src/convert.cpp:1059-1113 | the accumulated Flash value is the sum of each converted part's bits |
| ExifConvert.VersionChars | src/ThirdParty/Exiv2/exiv2-0.28.5/src/convert.cpp:764-767 | one character per component |
| ExifConvert.DottedNumbers | src/ThirdParty/Exiv2/exiv2-0.28.5/src/convert.cpp:779-784 | the components joined with dots |
| ExifConvert.SpaceJoined | src/ThirdParty/Exiv2/exiv2-0.28.5/src/convert.cpp:905-917 | the items joined with single spaces |
| ExifConvert.ReplaceDots | src/ThirdParty/Exiv2/exiv2-0.28.5/src/convert.cpp:1047 | every dot becomes a space and nothing else changes |
| ExifConvert.WithDigests | src/ThirdParty/Exiv2/exiv2-0.28.5/src/convert.cpp:1298-1303 | both digest keys present afterwards; Exif, IPTC and flags unchanged |
| ExifConvert.SyncResult | src/ThirdParty/Exiv2/exiv2-0.28.5/src/convert.cpp:1305-1334 | both digest keys present after syncing |
| ExifConvert.ToXmpKeepsExif | src/ThirdParty/Exiv2/exiv2-0.28.5/src/convert.cpp:511-517 | converting any table of Exiv2's form (each rule's converter towards XMP one of the cnvExif* or cnvIptcValue converters, or none) to XMP without erase leaves Exif and the flags unchanged, given that the converters taken as parameters (comments, arrays, dates, GPS coordinates, IPTC values) only read Exif when not erasing |
| ExifConvert.SyncKeepsExifWhenStale | src/ThirdParty/Exiv2/exiv2-0.28.5/src/convert.cpp:1305-1334 | for a table of Exiv2's form and parameter converters that only read Exif when not erasing: when XMP is stale or a digest is missing, syncing leaves Exif unchanged, never erases, and overwrites exactly when both digests were present |
| TgaHeader.LittleEndianInt | src/ThirdParty/QtImageFormats/qtimageformats/src/plugins/imageformats/tga/qtgafile.h:84-87 | the two bytes give an unsigned 16-bit value whose low byte is the first and high byte the second |
| TgaHeader.LittleEndianRoundTrip | src/ThirdParty/QtImageFormats/qtimageformats/src/plugins/imageformats/tga/qtgafile.h:84-87 | reading back the two little-endian bytes of a 16-bit value gives that value, and the bytes of a read value are the bytes read |
| TgaHeader.IsValid | src/ThirdParty/QtImageFormats/qtimageformats/src/plugins/imageformats/tga/qtgafile.h:70-73 | the file is valid exactly when the error message is empty |
| TgaHeader.XOffset | src/ThirdParty/QtImageFormats/qtimageformats/src/plugins/imageformats/tga/qtgafile.h:33-92 | x origin = byte 8 + 256 * byte 9, in 0..65535 |
| TgaHeader.YOffset | src/ThirdParty/QtImageFormats/qtimageformats/src/plugins/imageformats/tga/qtgafile.h:34-97 | y origin = byte 10 + 256 * byte 11, in 0..65535 |
| TgaHeader.Width | src/ThirdParty/QtImageFormats/qtimageformats/src/plugins/imageformats/tga/qtgafile.h:35-102 | width = byte 12 + 256 * byte 13, in 0..65535 |
| TgaHeader.Height | src/ThirdParty/QtImageFormats/qtimageformats/src/plugins/imageformats/tga/qtgafile.h:36-107 | height = byte 14 + 256 * byte 15, in 0..65535 |
| TgaHeader.Size | src/ThirdParty/QtImageFormats/qtimageformats/src/plugins/imageformats/tga/qtgafile.h:109-112 | the size is (width, height), both in 0..65535 |
| TgaHeader.CompressionOf | src/ThirdParty/QtImageFormats/qtimageformats/src/plugins/imageformats/tga/qtgafile.h:114-119 | compression is always NoCompression |
| TgaHeader.FieldsAreIndependent | src/ThirdParty/QtImageFormats/qtimageformats/src/plugins/imageformats/tga/qtgafile.h:26-39 | the four 16-bit fields occupy disjoint byte pairs inside the 18-byte header: writing one is read back exactly and leaves the other three unchanged |
| TgaHeader.SizeDependsOnBytes12To15 | src/ThirdParty/QtImageFormats/qtimageformats/src/plugins/imageformats/tga/qtgafile.h:35-112 | two headers that agree on bytes 12 to 15 have the same size |
| ExrCompression.MaxBufferSizeAsWritten | src/ThirdParty/OpenEXR/openexr-3.2.4/src/lib/OpenEXRCore/compression.c:18-43 | the function as written (the product in_bytes * 130 wraps modulo 2^64 before the test `extra < in_bytes`); never above SIZE_MAX |
| ExrCompression.AsWrittenMissesWrap | src/ThirdParty/OpenEXR/openexr-3.2.4/src/lib/OpenEXRCore/compression.c:35-36 | for in_bytes = 0x01FC07F01FC07F02 the product overflows, yet the as-written result is below SIZE_MAX while the intended result saturates |
| ExrCompression.AsWrittenAgreesWithoutWrap | src/ThirdParty/OpenEXR/openexr-3.2.4/src/lib/OpenEXRCore/compression.c:35-42 | when in_bytes * 130 does not overflow, the as-written and the corrected computation agree |
| ExrCompression.MaxBufferSize | src/ThirdParty/OpenEXR/openexr-3.2.4/src/lib/OpenEXRCore/compression.c:18-43 | SIZE_MAX when compressBound > SIZE_MAX - 9, when in_bytes * 130 overflows or when in_bytes * 130 / 128 > SIZE_MAX - 100; otherwise max(compressBound + 9, in_bytes * 130 / 128), which is at least in_bytes |
| ExrCompression.CompressLevel | src/ThirdParty/OpenEXR/openexr-3.2.4/src/lib/OpenEXRCore/compression.c:60-65 | a non-negative level is kept; a negative one takes the library default, and 4 when that is negative too; the result is never negative |
| ExrCompression.CompressOutcome | src/ThirdParty/OpenEXR/openexr-3.2.4/src/lib/OpenEXRCore/compression.c:67-73 | Z_OK gives SUCCESS and stores the output size through a non-null actual_out; any other status gives OUT_OF_MEMORY and leaves actual_out alone |
| ExrCompression.UncompressOutcome | src/ThirdParty/OpenEXR/openexr-3.2.4/src/lib/OpenEXRCore/compression.c:91-102 | SUCCESS iff Z_OK and the whole input consumed; CORRUPT_CHUNK iff Z_OK with input left over or Z_DATA_ERROR; OUT_OF_MEMORY otherwise; on Z_OK the output size is stored even when the chunk is corrupt |
| LcmsTestbed.LiveTotalRemove | src/ThirdParty/LittleCMS2/lcms2-2.17/testbed/testcms2.c:149 | a live block's size can be taken out of the total of live sizes, whichever block it is |
| LcmsTestbed.LiveTotalAdd | src/ThirdParty/LittleCMS2/lcms2-2.17/testbed/testcms2.c:119 | adding a block adds its size to the total of live sizes |
| LcmsTestbed.DebugAllocator.constructor | src/ThirdParty/LittleCMS2/lcms2-2.17/testbed/testcms2.c:73 | the counters start at zero with no live block |
| LcmsTestbed.DebugAllocator.Malloc | src/ThirdParty/LittleCMS2/lcms2-2.17/testbed/testcms2.c:60-135 | zero bytes end the process; otherwise TotalMemory grows by the size modulo 2^32, MaxAllocated and SingleHit follow the maxima, a failed malloc ends the process and a successful one records the block with its owner; TotalMemory stays the sum of the live sizes |
| LcmsTestbed.DebugAllocator.Free | src/ThirdParty/LittleCMS2/lcms2-2.17/testbed/testcms2.c:139-156 | a NULL free ends the process; otherwise the size leaves TotalMemory first, and the block is released unless another thread owns it and it is not exempt, which ends the process |
| LcmsTestbed.DebugAllocator.Realloc | src/ThirdParty/LittleCMS2/lcms2-2.17/testbed/testcms2.c:159-176 | a fresh block of the new size owned by the caller, its first min(old, new) bytes copied from the old block and the rest as allocated, the old block gone and every other block unchanged; MaxAllocated and SingleHit as the malloc of the new size leaves them and TotalMemory grown by the new size and reduced by the old one, modulo 2^32; zero bytes or a failed malloc end the process with that reason, and so does a free refused because another thread owns the old block |
| LcmsTestbed.DebugAllocator.DontCheckThis | src/ThirdParty/LittleCMS2/lcms2-2.17/testbed/testcms2.c:187-192 | only the block's exemption mark changes |
| LcmsTestbed.DbgThreadCounter.Next | src/ThirdParty/LittleCMS2/lcms2-2.17/testbed/testcms2.c:101-107 | the k-th call returns k modulo 0xff0, k taken modulo 2^32 |
| LcmsTestbed.RampEnds | src/ThirdParty/LittleCMS2/lcms2-2.17/testbed/testcms2.c:1009-1013 | a ramp table starts at 0 and ends at 65535 |
| LcmsTestbed.RampMonotone | src/ThirdParty/LittleCMS2/lcms2-2.17/testbed/testcms2.c:1009-1013 | the ramp never decreases |
| LcmsTestbed.RampInRange | src/ThirdParty/LittleCMS2/lcms2-2.17/testbed/testcms2.c:1009-1013 | every ramp value fits 16 bits |
| LcmsTestbed.Ramp | src/ThirdParty/LittleCMS2/lcms2-2.17/testbed/testcms2.c:1009-1013 | a ramp value is never negative |
| LcmsTestbed.BuildTable | src/ThirdParty/LittleCMS2/lcms2-2.17/testbed/testcms2.c:1004-1014 | entry k is the rounded ramp value at k, or at n-1-k when descending; entries past n are untouched |
| LcmsTestbed.DescendingIsReverse | src/ThirdParty/LittleCMS2/lcms2-2.17/testbed/testcms2.c:1004-1014 | of two tables as BuildTable leaves them, the descending one is the ascending one reversed and never increases |
| LcmsTestbed.Fn8D1IsMean | src/ThirdParty/LittleCMS2/lcms2-2.17/testbed/testcms2.c:1707-1713 | with 1 to 8 used inputs and the rest zero, the result lies between the least and the greatest input |
| LcmsTestbed.Fn8D1 | src/ThirdParty/LittleCMS2/lcms2-2.17/testbed/testcms2.c:1707-1713 | eight equal inputs with m = 8 give that input back |
| LcmsTestbed.Fn8D2IsMean | src/ThirdParty/LittleCMS2/lcms2-2.17/testbed/testcms2.c:1716-1722 | with 3 to 8 used inputs the weights 1,3,3,1,... sum to m + 4, so the result is a weighted mean within the inputs' range |
| LcmsTestbed.Fn8D2 | src/ThirdParty/LittleCMS2/lcms2-2.17/testbed/testcms2.c:1716-1722 | eight equal inputs with m = 8 give that input back, the weights summing to m + 4 = 12 |
| LcmsTestbed.Fn8D3IsMean | src/ThirdParty/LittleCMS2/lcms2-2.17/testbed/testcms2.c:1725-1731 | with 3 to 8 used inputs the weights 3,2,3,1,... sum to m + 5, so the result is a weighted mean within the inputs' range |
| LcmsTestbed.Fn8D3 | src/ThirdParty/LittleCMS2/lcms2-2.17/testbed/testcms2.c:1725-1731 | eight equal inputs with m = 8 give that input back, the weights summing to m + 5 = 13 |
| LcmsTestbed.WeightTotals | src/ThirdParty/LittleCMS2/lcms2-2.17/testbed/testcms2.c:1721-1730 | the weights over the first m inputs sum to m, m + 4 and m + 5 |
| LcmsTestbed.IsGoodWordPrec | src/ThirdParty/LittleCMS2/lcms2-2.17/testbed/testcms2.c:880-889 | good exactly when the two values differ by at most maxErr |
| LcmsTestbed.TestCounters.ReportError | src/ThirdParty/LittleCMS2/lcms2-2.17/testbed/testcms2.c:5680-5689 | the error flag is set and one more error is counted |
| LcmsTestbed.TestCounters.Check | src/ThirdParty/LittleCMS2/lcms2-2.17/testbed/testcms2.c:300-332 | one more test, and one more failure unless the test returned true with no error trapped |
| JasPerRender.TruncDiv | src/ImageViewer/src/Decoders/Impl/DecoderLibJasPer.cpp:137-215 | C division by a positive step: the remainder has the sign of the dividend and is smaller than the step |
| JasPerRender.TruncDivSmallNegative | src/ImageViewer/src/Decoders/Impl/DecoderLibJasPer.cpp:137-215 | an offset in (-step, 0) lands on grid point 0, not -1 |
| JasPerRender.Clamp16 | src/ImageViewer/src/Decoders/Impl/DecoderLibJasPer.cpp:143-220 | std::min(std::max(v, 0), 65535): in 0..65535, v itself when in range, 0 below and 65535 above |
| JasPerRender.ChannelValueAsWritten | src/ImageViewer/src/Decoders/Impl/DecoderLibJasPer.cpp:141-220 | the reduction as written (shift to 16 bits, clamp, divide by 65535 / 255 = 257); always in 0..255 |
| JasPerRender.AsWrittenDarkensEightBit | src/ImageViewer/src/Decoders/Impl/DecoderLibJasPer.cpp:142-220 | as written, every 8-bit sample 1..255 comes out one lower, so white becomes 254 |
| JasPerRender.ChannelValue | src/ImageViewer/src/Decoders/Impl/DecoderLibJasPer.cpp:141-220 | the corrected reduction (the clamped 16-bit value's high byte); always in 0..255 |
| JasPerRender.EightBitUnchanged | src/ImageViewer/src/Decoders/Impl/DecoderLibJasPer.cpp:142-220 | the corrected reduction leaves every 8-bit sample unchanged |
| JasPerRender.CorrectedEnds | src/ImageViewer/src/Decoders/Impl/DecoderLibJasPer.cpp:142-220 | negative samples give 0 and, for 8 or more bits of precision, the largest sample gives 255 |
| JasPerRender.CorrectedNotDarker | src/ImageViewer/src/Decoders/Impl/DecoderLibJasPer.cpp:143-220 | the corrected value is the as-written value or one more |
| JasPerRender.ChannelAt | src/ImageViewer/src/Decoders/Impl/DecoderLibJasPer.cpp:134-221 | a component's 8-bit value at an output pixel is in 0..255, under either reduction |
| JasPerRender.ChannelAtCases | src/ImageViewer/src/Decoders/Impl/DecoderLibJasPer.cpp:137-221 | a pixel whose grid point lies outside the component is 0 in that channel; one inside takes its sample at that point reduced by 257 (AsWritten, lines 143 and 220) or by 256 (Corrected) |
| JasPerRender.ChannelAtCorrection | src/ImageViewer/src/Decoders/Impl/DecoderLibJasPer.cpp:134-221 | at every pixel the corrected value is the program's value or one more |
| JasPerRender.GrayPixel | src/ImageViewer/src/Decoders/Impl/DecoderLibJasPer.cpp:222 | grey output has r = g = b, under either reduction |
| JasPerRender.RgbPixel | src/ImageViewer/src/Decoders/Impl/DecoderLibJasPer.cpp:134-146 | every channel is in 0..255, and a pixel whose three channels come from one component is grey, under either reduction |
| JasPerRender.RenderGray | src/ImageViewer/src/Decoders/Impl/DecoderLibJasPer.cpp:185-226 | null iff the image has no component, no pixels, or cannot be allocated ("Image is too large"); otherwise a new width * height image whose pixel m is the grey pixel of row m / width, column m mod width |
| JasPerRender.GrayRow | src/ImageViewer/src/Decoders/Impl/DecoderLibJasPer.cpp:208-224 | one scanline of the grey renderer: row i written, earlier rows kept |
| JasPerRender.RenderRgb | src/ImageViewer/src/Decoders/Impl/DecoderLibJasPer.cpp:90-150 | null iff a red, green or blue component is missing, the image has no pixels, or it cannot be allocated; otherwise pixel m takes channel k from the component cmptlut[k] at row m / width, column m mod width |
| JasPerRender.RgbRow | src/ImageViewer/src/Decoders/Impl/DecoderLibJasPer.cpp:129-147 | one scanline of the RGB renderer, each pixel's channels read through cmptlut |
| JasPerRender.RenderDecoded | src/ImageViewer/src/Decoders/Impl/DecoderLibJasPer.cpp:250-265 | a failed decode gives no image; a three-component image with all colour types and pixels renders as RGB, every other image falls back to grey; the result is null iff there is no component, no pixel, or the image cannot be allocated. With AsWritten every pixel is the program's; with Corrected, the intended one |
| WmfPixels.NewProvider | src/ImageViewer/src/Decoders/Impl/DecoderLibWmf.cpp:95-158 | the provider is valid iff the buffer maps, wmf_api_create, wmf_mem_open, wmf_scan and wmf_display_size succeed and neither display side is 0; an invalid provider keeps both scale bounds at 1; a valid one keeps the display size |
| WmfPixels.ErrorToString | src/ImageViewer/src/Decoders/Impl/DecoderLibWmf.cpp:61-86 | "No error." is the text of wmf_E_None and of no other code |
| WmfPixels.ScaleBounds | src/ImageViewer/src/Decoders/Impl/DecoderLibWmf.cpp:58-157 | any scale factor between minScale = max(1/w, 1/h) and maxScale = min(16384/w, 16384/h) scales both sides into 1..16384 |
| WmfPixels.Ceil | src/ImageViewer/src/Decoders/Impl/DecoderLibWmf.cpp:190-191 | std::ceil: the least integer not below x |
| WmfPixels.ScaledSizeBounds | src/ImageViewer/src/Decoders/Impl/DecoderLibWmf.cpp:156-191 | the requested image size ceil(w*s) x ceil(h*s) is 1 to 16384 pixels on each side for any scale within the bounds |
| WmfPixels.ToArgbChannels | src/ImageViewer/src/Decoders/Impl/DecoderLibWmf.cpp:213-222 | the blue, green and red bytes are carried over in place; alpha is 255 - 2 * (GD alpha in bits 24-30), always odd, 255 for an opaque GD pixel and 1 for a fully transparent one |
| WmfPixels.ToArgb | src/ImageViewer/src/Decoders/Impl/DecoderLibWmf.cpp:213-222 | the blue, green and red bytes of the GD pixel reach the ARGB value unchanged |
| WmfPixels.UnpackImage | src/ImageViewer/src/Decoders/Impl/DecoderLibWmf.cpp:207-225 | the image has width * height pixels and the pixel at row-major position k is the conversion of the k-th GD pixel: one GD int consumed per output pixel |
| LercDecode.ErrorString | src/ImageViewer/src/Decoders/Impl/DecoderLERC.cpp:86-104 | codes 0..4 get their own names, and exactly the other codes get "Unknown" |
| LercDecode.LayoutOf | src/ImageViewer/src/Decoders/Impl/DecoderLERC.cpp:144-179 | the planar branch is taken iff bands == 3 and dims == 1, the interleaved branch iff bands == 1 and dims == 3, the grey branch otherwise |
| LercDecode.ChannelIndexInBounds | src/ImageViewer/src/Decoders/Impl/DecoderLERC.cpp:118-193 | with at least one dimension and one band, every index read for any pixel and channel lies inside the dims * bands * width * height value buffer |
| LercDecode.ChannelIndexLayout | src/ImageViewer/src/Decoders/Impl/DecoderLERC.cpp:153-188 | planar: the channels of a pixel are width * height apart; interleaved: they are at 3 pos, 3 pos + 1 and 3 pos + 2; grey: all three read the same value |
| LercDecode.ChannelIndex | src/ImageViewer/src/Decoders/Impl/DecoderLERC.cpp:153-188 | carries no ensures of its own: where each layout reads is stated by ChannelIndexLayout and ChannelIndexInBounds |
| LercDecode.Scaled | src/ImageViewer/src/Decoders/Impl/DecoderLERC.cpp:141-156 | with zMax different from zMin, zMin maps to 0 and zMax to 255 before the byte clamp |
| LercDecode.MaskFits | src/ImageViewer/src/Decoders/Impl/DecoderLERC.cpp:123-189 | every pixel's mask byte lies inside the max(masks, 1) * width * height mask buffer |
| LercDecode.Alpha | src/ImageViewer/src/Decoders/Impl/DecoderLERC.cpp:157-190 | alpha is 255 minus the mask byte when the branch uses the mask (a single mask in the RGB branches, any mask in the grey branch) and 255 otherwise |
| LercDecode.PixelAt | src/ImageViewer/src/Decoders/Impl/DecoderLERC.cpp:144-193 | the grey branch writes equal red, green and blue; every branch's alpha follows the mask rule |
| LercDecode.DecodeLercBlob | src/ImageViewer/src/Decoders/Impl/DecoderLERC.cpp:106-196 | no image iff the QImage cannot be made or lerc_decode fails; otherwise a new width * height image whose pixel at row-major position pos is the pixel the layout rule gives for pos |
| LercDecode.DecodeRow | src/ImageViewer/src/Decoders/Impl/DecoderLERC.cpp:147-160 | one scanline: pixels j * width to (j + 1) * width are written, earlier ones kept |
| LercDecode.ReadLercFile | src/ImageViewer/src/Decoders/Impl/DecoderLERC.cpp:198-262 | a failing lerc_getBlobInfo or a data type outside 0..7 gives no image; any of the eight known types decodes as decodeLercBlob does |
| ThemeUtil.Lightness | src/QtUtils/src/Utils/ThemeUtils.cpp:51-65 | the fallback lightness lies in 0..255, between the smallest and the largest component, and is their midpoint rounded down |
| ThemeUtil.IsDarkTheme | src/QtUtils/src/Utils/ThemeUtils.cpp:67-71 | a palette is dark iff the text's lightness is strictly greater than the window's |
| ThemeUtil.DarkIsStrict | src/QtUtils/src/Utils/ThemeUtils.cpp:67-71 | equal lightness is not dark, two colours cannot each be darker than the other, and a colour against itself is not dark |
| ThemeUtil.IconPaths | src/QtUtils/src/Utils/ThemeUtils.cpp:207-257 | a handled icon type gives the 16 and 32 pixel paths under ":/icons/modern/" from its lower-cased name, ABOUT named icon_info and AUTHORS icon_people; an unhandled type gives no pixmaps (an empty icon) |
| ThemeUtil.IconNamesAreLowerCase | src/QtUtils/src/Utils/ThemeUtils.cpp:215 | the name part of every icon path is lower case |
| ThemeUtil.IconName | src/QtUtils/src/Utils/ThemeUtils.cpp:211-253 | every name the switch uses begins with ICON_ or, for the two named cases, icon_ |
| ThemeUtil.LoadStyleSheet | src/QtUtils/src/Utils/ThemeUtils.cpp:86-100 | the applied sheet is the text of the files that open, in list order; the status is true iff every file opens |
| ThemeUtil.AllReadableIsConcatenation | src/QtUtils/src/Utils/ThemeUtils.cpp:90-98 | when every file opens, the applied sheet is the concatenation of all the files |
| RawQuality.Encode | src/ThirdParty/KImageFormats/kimageformats-master/src/imageformats/raw_p.h:43-47 | the quality value that carries a flag word is negative and never -1 |
| RawQuality.DecodeEncode | src/ThirdParty/KImageFormats/kimageformats-master/src/imageformats/raw_p.h:44-59 | reading the I, C, W, A, B, H, E, N, F and S fields of a flag word built from settings gives exactly those settings |
| RawQuality.DecodeBits | src/ThirdParty/KImageFormats/kimageformats-master/src/imageformats/raw_p.h:44-59 | encoding the settings read from a word gives back every field bit (bits 4-20) of that word |
| RawQuality.EncodeRoundTrip | src/ThirdParty/KImageFormats/kimageformats-master/src/imageformats/raw_p.h:43-59 | every combination of flags has a quality value (negative, not -1), and interpreting that value gives back the same settings |
| RawQuality.EncodeBits | src/ThirdParty/KImageFormats/kimageformats-master/src/imageformats/raw_p.h:46-49 | in an encoded flag word bits 0-3 and 21-30 are zero and bit 31 is set |
| RawQuality.ReservedBitsIgnored | src/ThirdParty/KImageFormats/kimageformats-master/src/imageformats/raw_p.h:46-49 | the reserved bits and the sign bit do not influence the decoded flags |
| RawQuality.TableRow | src/ThirdParty/KImageFormats/kimageformats-master/src/imageformats/raw_p.h:62-73 | every row of the quality table turns on both camera and auto white balance |
| RawQuality.Interpret | src/ThirdParty/KImageFormats/kimageformats-master/src/imageformats/raw_p.h:40-75 | quality 0, and only 0, asks for the embedded preview |
| RawQuality.DefaultIsRow30 | src/ThirdParty/KImageFormats/kimageformats-master/src/imageformats/raw_p.h:40-75 | -1 selects the row marked default (30-39): AHD, 16 bits, full size |
| RawQuality.PreviewFallsBackToHalfSize | src/ThirdParty/KImageFormats/kimageformats-master/src/imageformats/raw_p.h:63-65 | the preview falls back to the half-size row 1-9; rows 10-19 are the same at full size |
| RawQuality.InterpolationByRange | src/ThirdParty/KImageFormats/kimageformats-master/src/imageformats/raw_p.h:64-73 | rows below 20 are linear, rows 20-59 AHD and rows from 60 on DHT |
| RawQuality.DecadePattern | src/ThirdParty/KImageFormats/kimageformats-master/src/imageformats/raw_p.h:66-73 | each DHT row has the colour space and bit depth of the AHD row 40 below it |
| RawQuality.EffectiveWhiteBalance | src/ThirdParty/KImageFormats/kimageformats-master/src/imageformats/raw_p.h:60 | with W and A both set, the camera's white balance applies when one is found and auto white balance otherwise; camera balance needs W and a recorded balance, auto balance needs A |
| QImageFormats.Insert | src/ImageViewer/Decoders/DecoderQImage.cpp:61-65 | std::set::insert on the ordered model: the result is still strictly ascending and holds exactly the old elements and the new one |
| QImageFormats.LowerAll | src/ImageViewer/Decoders/DecoderQImage.cpp:63-65 | each format lower-cased, in place |
| QImageFormats.SupportedFormats | src/ImageViewer/Decoders/DecoderQImage.cpp:45-75 | the result is strictly ascending (hence without duplicates), holds exactly the lower-cased reader formats and defaults, and every entry has priority 100 |
| QImageFormats.InsertLowered | src/ImageViewer/Decoders/DecoderQImage.cpp:62-65 | inserting a list's lower-cased formats into an ordered set keeps it strictly ascending and leaves exactly the old members plus the lower-cased formats |
| QImageFormats.AscendingHasNoDuplicates | src/ImageViewer/Decoders/DecoderQImage.cpp:61-67 | an ascending list has no entry twice |
| QImageFormats.DefaultsAlwaysListed | src/ImageViewer/Decoders/DecoderQImage.cpp:48-65 | each of the nine defaults is lower case already, so it is always in the result under its own name |
| QImageFormats.LoadImage | src/ImageViewer/Decoders/DecoderQImage.cpp:77-109 | no item iff the file is missing, unreadable or reads as a null image; orientation 1 turns Qt's auto-transform on and applies no Exif orientation; any other orientation turns it off and applies that orientation |
| WicFormats.Ole32.constructor | src/ImageViewer/src/Decoders/Impl/DecoderWIC.cpp:95-108 | the four entry points are resolved only once ole32 has loaded; otherwise they stay null |
| WicFormats.IsAvailable | src/ImageViewer/src/Decoders/Impl/DecoderWIC.cpp:55-64 | the decoder is available iff ole32 loaded and all four entry points resolved |
| WicFormats.Wrap | src/ImageViewer/src/Decoders/Impl/DecoderWIC.cpp:126-159 | each *_WRAP call returns the entry point's result when ole32 is available and E_FAIL otherwise |
| WicFormats.Remove | src/ImageViewer/src/Decoders/Impl/DecoderWIC.cpp:228-229 | QString::remove(c): no c is left and every other character of the input is kept |
| WicFormats.RemoveCounts | src/ImageViewer/src/Decoders/Impl/DecoderWIC.cpp:228-229 | every character other than c is kept as often as it occurs, and the length drops by the number of c |
| WicFormats.RemoveAppend | src/ImageViewer/src/Decoders/Impl/DecoderWIC.cpp:228-229 | removing from a concatenation is removing from each part and concatenating, so the kept characters stay in order |
| WicFormats.Split | src/ImageViewer/src/Decoders/Impl/DecoderWIC.cpp:230 | QString::split(c): at least one piece, no piece holds c, and every character of a piece comes from the input |
| WicFormats.SplitJoin | src/ImageViewer/src/Decoders/Impl/DecoderWIC.cpp:230 | joining the pieces with c gives the input back: splitting loses nothing |
| WicFormats.Normalize | src/ImageViewer/src/Decoders/Impl/DecoderWIC.cpp:224-231 | one FileExtensions value gives at least one entry; no entry holds '.', ' ' or ',', every entry is lower case, and the entries joined with ',' are exactly the value lower-cased with its dots and spaces removed |
| WicFormats.Dedup | src/ImageViewer/src/Decoders/Impl/DecoderWIC.cpp:234 | QStringList::removeDuplicates: the same strings, each once, no longer than the input |
| WicFormats.DedupHasNoDuplicates | src/ImageViewer/src/Decoders/Impl/DecoderWIC.cpp:234 | after removeDuplicates no string appears twice |
| WicFormats.DedupKeepsPrefix | src/ImageViewer/src/Decoders/Impl/DecoderWIC.cpp:234 | removing duplicates from a longer list keeps the shorter list's result in front: first occurrences are what stays |
| WicFormats.DedupOfDistinct | src/ImageViewer/src/Decoders/Impl/DecoderWIC.cpp:234 | a list without duplicates is left unchanged |
| WicFormats.SupportedFormats | src/ImageViewer/src/Decoders/Impl/DecoderWIC.cpp:186-236 | empty when WIC is unavailable; otherwise the built-in extensions, then every codec's normalised extensions in registry order, with duplicates removed |
| WicFormats.AppendExtensions | src/ImageViewer/src/Decoders/Impl/DecoderWIC.cpp:221-232 | the registry loop appends each codec's extensions in turn to the list it started with |
| WicFormats.FormatsAreClean | src/ImageViewer/src/Decoders/Impl/DecoderWIC.cpp:224-234 | no entry of the final list holds '.', ' ' or ',', and none is repeated |
| WicFormats.BuiltinsLead | src/ImageViewer/src/Decoders/Impl/DecoderWIC.cpp:191-234 | the final list starts with the de-duplicated built-in list |
| Common.IntToStringParses | src/ImageViewer/src/GUI/Dialogs/PrintDialog.cpp:613 | the decimal text of a number reads back as that number, so different numbers print differently |
| Common.ToLowerIsLower | src/ImageViewer/Decoders/DecoderQImage.cpp:63-65 | lower-casing leaves no upper-case letter and is idempotent |
| Common.LowerIsFixed | src/ImageViewer/Decoders/DecoderQImage.cpp:63-65 | a string without upper-case letters is its own lower-casing |
| UnsignedBits.OrDisjoint | src/ThirdParty/LERC/lerc-js_v4.0.4/src/LercLib/Huffman.h:233 | or-ing a value into bits that are clear is adding it |
| UnsignedBits.OrHigh | src/ThirdParty/LERC/lerc-js_v4.0.4/src/LercLib/Huffman.h:233-248 | or-ing a value below 2^k leaves the bits from k upward unchanged |

## Left out

- Input and output, logging and warnings (Qt message output, EXV_WARNING, printf). They have no effect on results.
- Print dialog: doubles are treated as exact reals. Rounding is not modelled.
- PrintPlacement: qFuzzyCompare is treated as exact equality. The aspect-ratio test is written as a cross-multiplication.
- PrintPlacement.ItemBounds: a rotation that is not a multiple of 90 degrees enters as its |cos| and |sin| (the Turn datatype). The trigonometry is not modelled.
- PrintPlacement: the selected printer's resolution is given as a parameter of at least 1. A zero aspect ratio, resolution or page size is excluded by requires, because the source would divide by zero there.
- PrintPlacement: the paper and page rectangles come from QPrinter and enter as parameters.
- Print dialog user interface, not modelled:
  - spin-box ranges and display;
  - the preview widget and painting;
  - copies and colour mode;
  - printer information labels other than the state text;
  - translation of labels.
- PrintPlacement.Multiplier: states only that each factor is positive. The factors themselves are the constants in the function.
- Huffman: tree construction, code-length computation and canonical codes are not part of this model. The model covers only bit I/O, decoding and TreeToLUT/FreeTree.
- HuffmanDecode: the decode table and numBitsLUT are parameters. The tables are assumed consistent with the tree (ValidTables), as the encoder that builds them guarantees.
- HuffmanTree.FreeTree: modelled as the count of nodes released. Deallocation and aliasing are not modelled.
- HuffmanBits: memcpy of stream words is taken to move whole 32-bit words. Byte order is not modelled.
- Exiv2 converters supplied as parameters rather than modelled:
  - the date, GPS coordinate, comment, Exif-to-XMP array (cnvExifArray) and IPTC-value converters;
  - character-set conversion.
- Exiv2 namespace: the XMP toolkit build option is assumed enabled.
- ExifValues: setValue is taken to always succeed.
- ExifConvert: a container holds each key once. Exiv2's ExifData and XmpData may hold repeated keys.
- ExifConvert: one ok flag per datum stands for the value's parse state.
- ExifValues: the XMP booleans "True"/"False" are read as 1/0.
- ExifConvert: the XMP digest is computed outside this model and enters as a parameter.
- ExifValues: the flash bit field's `|=` is written as a sum over disjoint bits.
- ExifValues.SwapBytes: follows the Windows build. Other builds use iconv there.
- JasPerRender: a component precision above 16 is excluded by requires. The source shifts by a negative amount there, which is undefined behaviour in C++.
- LercDecode: byte sizes are unbounded integers. The 32-bit wrap of a product of the blob dimensions is not modelled.
- LercDecode.Scaled: a zero scale (zMax == zMin) gives 0. The clamp to a byte is a parameter.
- WmfPixels.ScaledSize: carries no ensures of its own. Its bounds are stated by WmfPixels.ScaledSizeBounds.
- LercDecode.ChannelIndex: carries no ensures of its own. Its layout and bounds are stated by LercDecode.ChannelIndexLayout and LercDecode.ChannelIndexInBounds.
- WmfPixels.ErrorToString: of its nine texts only "No error." is proved to belong to one code; the others are not proved pairwise distinct.
- LercDecode, WmfPixels: the LERC and libwmf libraries' calls enter as their results.
- QImageFormats: toLower is modelled on ASCII letters only.
- WicFormats.Normalize: lower-cases ASCII letters only, while QString::toLower also maps other Unicode letters.
- QImageFormats: allocation failure and the image's metadata are not modelled. What QImageReader reports enters as parameters.
- WicFormats: loading ole32 and reading the registry enter as their outcomes. The COM decoding calls are not modelled.
- ThemeUtil: files are a map from path to contents. The widget palette and style enter as parameters.
- RawQuality: the header documents only the mapping of the quality setting. There is no code behind it to model.
- LcmsTestbed: profiles, transforms, the interpolation and speed tests themselves, TestMemoryLeaks' report and all printing are not modelled.
- LcmsTestbed memory:
  - pointers are integers;
  - the addresses malloc returns and the garbage it leaves are parameters;
  - Die is a terminal flag, not a process exit.
- LcmsTestbed.DebugAllocator.Free: requires the pointer to be a live block. Freeing anything else is undefined behaviour in C.

## Findings

| source | as written | input that shows it | evidently intended | confidence | as-written member | corrected member |
|---|---|---|---|---|---|---|
| src/ThirdParty/OpenEXR/openexr-3.2.4/src/lib/OpenEXRCore/compression.c:35-36 | the overflow test `extra < in_bytes` misses products in_bytes * 130 that wrap modulo 2^64 to a value still at least in_bytes | in_bytes = 0x01FC07F01FC07F02 | return SIZE_MAX whenever in_bytes * 130 overflows | not executed | ExrCompression.AsWrittenMissesWrap | ExrCompression.MaxBufferSize |
| src/ImageViewer/src/Decoders/Impl/DecoderLibJasPer.cpp:143,220 | the 16-bit value is divided by 65535 / 255 = 257 | an 8-bit sample 255 gives 254; every sample s in 1..255 gives s - 1 | 8-bit samples unchanged (the high byte, a division by 256) | not executed | JasPerRender.AsWrittenDarkensEightBit | JasPerRender.ChannelValue |
