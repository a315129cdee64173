# ViSIE metadata and HEIF core, modelled in Dafny

ViSIE saves still images from video frames. It copies the video's location metadata into the images. This project models the three pieces of sequential logic at the centre of that work.

- **Container walker** (`mediareader.cpp`). `MediaReader::extract` puts the byte cursor at 0. `decend` then walks ISO base media file format boxes (ISO/IEC 14496-12, section 4.2):
  - it reads each box's 32-bit size and type;
  - it resolves the "to end of file" (0) and 64-bit (1) size forms in 64-bit unsigned arithmetic;
  - it descends into `moov` and hands `udta` to `handle_udta`;
  - after every box it seeks to the box's end.

  `handle_udta` walks the user-data items. For the `0xA9 'x' 'y' 'z'` item it splits the ISO 6709 location text into latitude and longitude. It writes the hemisphere references and one truncated degree/minute/second triple per axis. The walker uses the corrected split and conversion of the last three Findings rows: the split is at the first sign after the first character, the longitude ends at the next sign, and each triple is taken from the value's magnitude. The source's own split and conversion are kept beside them as `AsWritten` members, and the "## Left out" lines for the walker's members say where their writes differ from the source's.
- **GoPro telemetry** (`goproreader.cpp`). The GPMF parser locates the tokens. The reader then:
  - chooses a GPS sub-sample from a millisecond offset;
  - writes the hemisphere references (with latitude and longitude crossed, as coded);
  - writes the coordinates as degree/minute/second triples, the altitude with its reference, and the speed converted to km/h;
  - writes the DOP, the GPS date and time, and the device name.

  `extract` decides which of these handlers run. `fourCCStr` turns a 32-bit code into four characters.
- **HEIF writer** (`heifwriter.cpp`):
  - `setColorProfile` maps the three COLR code points (`ColorParams`, `colorparams.h:4-7`) to the nclx profile through a fixed table, with full range always set;
  - `setHeifColor` lays out the three planes of a 4:2:0 frame;
  - the copy loop in `save` copies the decoder's rows into the encoder's planes;
  - `addMeta` frames the encoded Exif block with a prefix and a suffix.

Modules:

| module | file | contents |
|---|---|---|
| `Bytes` | `bytes.dfy` | The byte source as `seq<bv8>`, with the reading and seeking rules of FFmpeg's `AVIOContext`. |
| `Exif` | `exif.dfy` | The metadata sink as an ordered log of `(key, value)` writes, and the degree/minute/second conversion. |
| `Iso6709` | `iso6709.dfy` | The location text split. |
| `Media` | `media.dfy` | The walker, as pure functions plus the class `MediaReader` (cursor `pos`, log `md`). Its methods are proved equal to those functions. |
| `GoPro` | `gopro.dfy` | The GPMF lookups as a `Lookups` record of `Option` inputs, and the class `GoproReader` (log `exifData`). |
| `Heif` | `heif.dfy` | The colour tables and plane layout as functions; the row copy as methods over arrays; the Exif framing. |

The source's integer arithmetic is modelled explicitly:
- `size_t` arithmetic is modulo 2^64.
- The box end is converted to `int64_t`.
- `fourCCStr` takes a signed 32-bit `int`.

All `floor` arithmetic on `double` and `float` is modelled exactly over `real`.

## Model

| member | source | states |
|---|---|---|
| Bytes.BigEndian | mediareader.cpp:18-19 | An n-byte big-endian read is below 256^n. |
| Bytes.Advance | mediareader.cpp:18-19 | A read never moves the cursor past the end of the source. It moves the cursor at most n bytes, and strictly forward when the cursor starts inside the source. |
| Bytes.BigEndianPastEnd | mediareader.cpp:18-21 | A read that starts at or past the end of the source yields 0. This is what ends a level with a zero type code. |
| Bytes.NonZeroReadStartsInside | mediareader.cpp:19-22 | A nonzero type code was read from inside the source. |
| Bytes.Seek | mediareader.cpp:55 | An absolute seek succeeds exactly when the source is seekable and the target lies in [0, size]. On success it returns the target; on failure it returns a negative code and leaves the cursor where it was. |
| Bytes.Signed64 | mediareader.cpp:55 | The unsigned 64-bit box end, taken as `int64_t`, is congruent to it modulo 2^64. |
| Exif.ToDms | mediareader.cpp:95-98 | deg = floor(d). The minutes and seconds are each in [0, 60). deg + min/60 + sec/3600 is at most d and within one arc-second below it. The same conversion is used by goproreader.cpp:99-102. |
| Exif.DmsValue | mediareader.cpp:100-102 | Each of the three parts is written as a rational over denominator 1. The value is the same signed triple as the input; whether it fits the sink's unsigned rationals is a separate question (Exif.DmsOfNonNegative). |
| Exif.DmsOfNonNegative | goproreader.cpp:96-104 | A non-negative value gives three non-negative parts, so the written triple fits an unsigned rational triple. |
| Exif.DmsExamples | mediareader.cpp:95-98 | 12.5 gives (12, 30, 0). 45.25 gives (45, 15, 0). |
| Iso6709.LastIndexOf | mediareader.cpp:85 | The result is -1 or an index holding the character, and no later index holds it. |
| Iso6709.AsWrittenSeparator | mediareader.cpp:85-87 | The source's split point: the last '-' if the text has one, otherwise the last '+'. |
| Iso6709.FirstSignFrom | mediareader.cpp:85-87 | The first sign character at or after i, or the end of the text: every index before it holds no sign. |
| Iso6709.Separator | mediareader.cpp:85-87 | The corrected split point: the first sign character after the first character, where the longitude starts. |
| Iso6709.LongitudeEnd | mediareader.cpp:93 | The corrected end of the longitude: the next sign character (an altitude's) or the end of the text, with no sign in between. |
| Iso6709.ChopSlash | mediareader.cpp:83-84 | A text ending in '/' loses exactly that character. Any other text is unchanged. |
| Iso6709.LocationEntries | mediareader.cpp:83-103 | A text naming a longitude gives four writes (the two references, then latitude, then longitude), split at Separator and ending the longitude at LongitudeEnd. Any other text gives no writes. |
| Iso6709.LocationParts | mediareader.cpp:89-103 | The four writes go to LatitudeRef, LongitudeRef, Latitude and Longitude, in that order. |
| Iso6709.AsWrittenLocationEntries | mediareader.cpp:83-103 | The source's writes: a text with a sign character gives four writes split at AsWrittenSeparator, and a text without one gives none. |
| Iso6709.AsWrittenLocationParts | mediareader.cpp:89-103 | The source's four writes, to the same four keys in the same order. |
| Iso6709.LocationReferences | mediareader.cpp:89-90 | LatitudeRef is "S" exactly when the text starts with '-', and "N" otherwise. LongitudeRef is "W" exactly when the longitude starts with '-', and "E" exactly when it starts with '+'. |
| Iso6709.AsWrittenLocationReferences | mediareader.cpp:85-90 | With the source's split, LongitudeRef is "E" exactly when the text holds no '-' at all, and "W" exactly when it does. |
| Iso6709.LocationUnsigned | mediareader.cpp:95-102 | Every value a location item writes has non-negative parts, as the unsigned rationals it is stored in require. |
| Iso6709.AsWrittenSignedDegrees | mediareader.cpp:95-102 | With the source's conversion, a negative longitude gives negative whole degrees, which no unsigned rational holds. |
| Iso6709.AsWrittenAltitudeLosesLongitude | mediareader.cpp:85-102 | With the source's split, a longitude followed by an altitude does not parse and is written as (0, 0, 0). |
| Iso6709.AsWrittenSouthernSplit | mediareader.cpp:85-102 | The source writes "-33.8688+151.2093/" as S, W, (0, 0, 0) and (0, 0, 0): the split is at index 0. |
| Iso6709.AsWrittenLocationExample | mediareader.cpp:83-103 | The source writes "+37.1234-122.5678/" as N, W, (37, 7, 24) and (-123, 25, 55). |
| Iso6709.LocationKeys | mediareader.cpp:89-103 | An item writes only the four location keys, and writes all four or none. |
| Iso6709.LocationKeysOfFour | mediareader.cpp:89-103 | Four writes in an item's order touch exactly the four location keys. |
| Iso6709.NotDecimal | mediareader.cpp:92-93 | A text whose first '.' is followed later by a non-digit does not parse. |
| Iso6709.SignedNotDecimal | mediareader.cpp:92-93 | Such a text with a sign in front reads as 0, as `toDouble` reports a failed parse. |
| Iso6709.AsWrittenPartsOf | mediareader.cpp:89-102 | The source's writes for a split, given what its two texts parse to. |
| Iso6709.ParseLatitudeExample | mediareader.cpp:92 | The latitude text "+37.1234" parses to 37.1234. |
| Iso6709.ParseLongitudeExample | mediareader.cpp:93 | The longitude text "-122.5678" parses to -122.5678: the sign is kept. |
| Iso6709.ParseSouthExample | mediareader.cpp:92 | The latitude text "-33.8688" parses to -33.8688. |
| Iso6709.ParseEastExample | mediareader.cpp:93 | The longitude text "+151.2093" parses to 151.2093. |
| Iso6709.SouthDigitsExample | mediareader.cpp:92 | The unsigned text "33.8688" reads as 33.8688. |
| Iso6709.EastDigitsExample | mediareader.cpp:93 | The unsigned text "151.2093" reads as 151.2093. |
| Iso6709.LatitudeDigitsExample | mediareader.cpp:92 | The unsigned text "37.1234" reads as 37.1234. |
| Iso6709.LongitudeDigitsExample | mediareader.cpp:93 | The unsigned text "122.5678" reads as 122.5678. |
| Iso6709.FractionExample | mediareader.cpp:92-93 | Four digits after the decimal point read as d1/10 + d2/100 + d3/1000 + d4/10000. |
| Iso6709.SeparatorExample | mediareader.cpp:85-87 | Both splits of "+37.1234-122.5678" are at index 8, and its longitude runs to the end. |
| Iso6709.AltitudeSeparatorExample | mediareader.cpp:85-87 | Both splits of "+37.1234-122.5678+030.000" are at index 8. The corrected longitude ends at the altitude's sign, index 17. |
| Iso6709.SouthernSeparatorExample | mediareader.cpp:85-87 | The corrected split of "-33.8688+151.2093" is at index 8. The source's is at index 0. |
| Iso6709.FirstSignIs | mediareader.cpp:85-87 | The first sign from i on is at k when k holds one (or is the end) and nothing between does. |
| Iso6709.DmsExample | mediareader.cpp:95-98 | 37.1234 gives (37, 7, 24) and 122.5678 gives (122, 34, 4). -122.5678 gives (-123, 25, 55), because floor rounds toward minus infinity. |
| Iso6709.LocationExample | mediareader.cpp:83-103 | "+37.1234-122.5678/" writes N, W, (37, 7, 24) and (122, 34, 4). |
| Iso6709.AltitudeExample | mediareader.cpp:83-103 | "+37.1234-122.5678+030.000/" writes what "+37.1234-122.5678/" does: an altitude after the longitude changes none of the writes. |
| Iso6709.ExampleParts | mediareader.cpp:89-102 | A text starting "+37.1234-122.5678", split at 8 and 17, writes N, W, (37, 7, 24) and (122, 34, 4). |
| Iso6709.PartsOf | mediareader.cpp:89-102 | The corrected writes for a split, given what its two texts parse to: each triple is that of the magnitude. |
| Iso6709.SouthernParts | mediareader.cpp:89-102 | A text starting "-33.8688+151.2093", split at 8 and 17, writes S, E, (33, 52, 7) and (151, 12, 33). |
| Iso6709.AsWrittenSouthernParts | mediareader.cpp:89-102 | The source's writes for "-33.8688+151.2093" split at 0 are S, W and two zero triples. |
| Iso6709.LongitudeRunsOn | mediareader.cpp:93 | A signed text whose first '.' is followed by another sign reads as 0. |
| Iso6709.SouthernExample | mediareader.cpp:83-103 | "-33.8688+151.2093/" writes S, E, (33, 52, 7) and (151, 12, 33). |
| Media.ResolveSize | mediareader.cpp:24-33 | Declared 0 gives the whole source size. Declared 1 gives the following 64-bit value minus 16. Anything else gives declared minus 8. Both subtractions wrap modulo 2^64. |
| Media.PlainSizeBoxEnd | mediareader.cpp:31-33 | With a declared size of 2 or more, the box ends at header + declared. A declared size of 2 to 7 wraps and puts the end inside the header. |
| Media.LargeSizeBoxEnd | mediareader.cpp:27-30 | With a declared size of 1, the box ends at header + largesize. A largesize below 16 wraps and puts the end before basePos. |
| Media.ZeroSizeBoxEnd | mediareader.cpp:24-26 | With a declared size of 0, the end is basePos + size, which lies past the end of the source. |
| Media.ZeroSizeBoxIsLast | mediareader.cpp:24-58 | A box declared with size 0 is visited, its seek fails, and the level stops after it. |
| Media.StepBox | mediareader.cpp:17-55 | A visited box has a nonzero type and its basePos is past its header. Only `moov` and `udta` write anything. The cursor stays within the source. |
| Media.BoxContents | mediareader.cpp:45-53 | Any type other than `moov` and `udta` is skipped: no writes and no reads. |
| Media.StepBoxVisited | mediareader.cpp:18-55 | A nonzero type code is resolved, dispatched on its type, and followed by a seek to BoxEnd. |
| Media.ZeroTypeEndsLevel | mediareader.cpp:19-22 | A zero type code stops the level before any dispatch or seek. Nothing is written and the cursor stays after the 8 header bytes. |
| Media.ResumesAtBoxEnd | mediareader.cpp:42-55 | Whatever the handler read, the seek targets basePos + atomSize. It succeeds exactly when that lies in the source, and the cursor is then there. |
| Media.AsWrittenNextBox | mediareader.cpp:55-62 | The source's stop test: the loop goes on only after a seek returning > 0 to a position before rangeEnd and before the end of the source. |
| Media.NextBox | mediareader.cpp:55-62 | The model's stop test: the source's test, plus progress. The next sibling starts after the first byte of the current header, so the walk terminates. It may start inside that header, as in the source. |
| Media.NextBoxRefinesAsWritten | mediareader.cpp:55-62 | The model's loop and the source's loop agree, except where the source would seek back to or before the header it has just read. |
| Media.Level | mediareader.cpp:15-64 | The cursor ends within the source. |
| Media.LevelUnfold | mediareader.cpp:17-63 | A level is its first box's writes, followed by the level from the next sibling. |
| Media.LevelKeys | mediareader.cpp:15-64 | However deep the descent goes, every write is one of the four location keys. |
| Media.StepBoxKeys | mediareader.cpp:45-53 | The same holds for one box step. |
| Media.ExtractKeys | mediareader.cpp:5-13 | A source that cannot seek to 0 gives no writes. Any source writes only location keys. |
| Media.Latin1 | mediareader.cpp:82 | Each byte becomes the character with the same code. |
| Media.XyzText | mediareader.cpp:77-82 | With len the 16-bit length at p, the text is the len bytes at p + 4, after the length and the 2 language bytes. A source that ends early gives the text up to its end. One that ends inside the two fields gives an empty text. |
| Media.XyzItem | mediareader.cpp:77-103 | The item writes the location entries of its text and leaves the cursor at p + 4 + len, or at the end of a source that ends early. |
| Media.StepItem | mediareader.cpp:69-106 | The cursor stays in the source, and strictly advances unless it reaches the end. |
| Media.UdtaItemStride | mediareader.cpp:69-106 | The next item is sought at p + 8 + itemSize: basePos is taken after the header, so the header is counted twice. When that seek fails, a non-location item leaves the cursor at p + 8. |
| Media.StepItemKeys | mediareader.cpp:74-103 | One item writes the four location keys or nothing. |
| Media.AsWrittenNextItem | mediareader.cpp:106-108 | The source's stop test: the loop goes on while the cursor is before rangeEnd. |
| Media.NextItem | mediareader.cpp:106-108 | The model's stop test also stops at the end of the source. The next item starts strictly later. When the walk stops, the cursor is at or past rangeEnd or at the end. |
| Media.NextItemRefinesAsWritten | mediareader.cpp:106-108 | The two tests disagree only when the source would go on from the end of the source. |
| Media.Udta | mediareader.cpp:66-110 | The walk ends at or past rangeEnd, or at the end of the source. |
| Media.UdtaUnfold | mediareader.cpp:68-109 | A walk is its first item's writes, followed by the walk from where that item left the cursor. |
| Media.UdtaLast | mediareader.cpp:106-108 | An item after which the loop stops is the whole rest of the walk. |
| Media.UdtaNext | mediareader.cpp:106-108 | Otherwise its writes come first. |
| Media.UdtaResume | mediareader.cpp:68-108 | A walk that has reached an item adds that item's writes to what it has written so far. It then either ends where the item left the cursor or resumes there. |
| Media.UdtaKeys | mediareader.cpp:66-110 | Every write of a user-data walk is a location key. |
| Media.AsWrittenLevelLoops | mediareader.cpp:27-62 | A box at h > 0 with size field 1 and largesize 0 makes the source's loop seek back to h. The model stops there. |
| Media.AsWrittenUdtaLoops | mediareader.cpp:68-109 | At the end of the source with rangeEnd beyond it, the source's item loop stays where it is. The model stops. |
| Media.MediaReader.constructor | mediareader.cpp:5 | The reader holds the byte source and the sink's log, with the cursor at 0. |
| Media.MediaReader.ReadU16 | mediareader.cpp:77 | Returns the big-endian 16-bit value at the cursor and advances by at most 2. |
| Media.MediaReader.ReadU32 | mediareader.cpp:18-19 | The same for 32 bits. |
| Media.MediaReader.ReadU64 | mediareader.cpp:28 | The same for 64 bits. |
| Media.MediaReader.ReadBytes | mediareader.cpp:81 | Returns the bytes between the old and the new cursor. At most n are read. |
| Media.MediaReader.SeekTo | mediareader.cpp:55 | The cursor and return code are those of Bytes.Seek. |
| Media.MediaReader.Extract | mediareader.cpp:5-13 | Appends exactly the writes of one descent over [0, size) when the seek to 0 succeeds, and nothing otherwise. |
| Media.MediaReader.Decend | mediareader.cpp:15-64 | Appends exactly Level's writes and leaves the cursor where Level ends. |
| Media.MediaReader.VisitBox | mediareader.cpp:18-62 | One loop pass equals StepBox: zero type, or dispatch and seek with the same writes, return code and cursor. |
| Media.MediaReader.ReadAtomSize | mediareader.cpp:24-33 | The size and basePos equal ResolveSize's. |
| Media.MediaReader.DispatchBox | mediareader.cpp:45-53 | Appends BoxContents' writes and leaves the cursor where it ends. |
| Media.MediaReader.HandleUdta | mediareader.cpp:66-110 | Appends exactly Udta's writes and leaves the cursor where Udta ends. |
| Media.MediaReader.VisitItem | mediareader.cpp:69-106 | One item pass equals StepItem. |
| GoPro.FourCCStr | goproreader.cpp:14-24 | Four characters, each below 256, most significant byte first. |
| GoPro.PackFourCC | goproreader.cpp:14-24 | Packing four Latin-1 characters gives a signed 32-bit code. |
| GoPro.FourCCRoundTrip | goproreader.cpp:14-24 | Re-packing the text of any signed 32-bit code gives back the code. |
| GoPro.FourCCTextRoundTrip | goproreader.cpp:14-24 | The text of a packed code is the text it was packed from. |
| GoPro.FloorOfQuotient | goproreader.cpp:68 | floor(t / (1000 / n)) = t * n div 1000 for n > 0. |
| GoPro.SubSampleIndex | goproreader.cpp:67-70 | The index is the floor formula clamped to n, and never exceeds n. |
| GoPro.SubSampleIndexRange | goproreader.cpp:67-70 | Inside the first second the index is < n. From t = 1000 ms on it is exactly n, one past the last sample. |
| GoPro.SampleIndex | goproreader.cpp:67-78 | The corrected index is always < n. It equals the source's index inside the first second, and is the last sample afterwards. |
| GoPro.DmsWrites | goproreader.cpp:96-105 | One triple per (key, value) pair, in order. |
| GoPro.GpsReferencesCrossed | goproreader.cpp:80-93 | LatitudeRef is "S" exactly when the longitude field is negative. LongitudeRef is "W" exactly when the latitude field is negative. |
| GoPro.GpsCoordinates | goproreader.cpp:96-105 | With positive scales: latitude then longitude, each a non-negative triple of abs(value) / scale. |
| GoPro.GpsAltitude | goproreader.cpp:107-115 | AltitudeRef is 1 exactly when the altitude is negative. The written numerator is abs(alt) over the scale. Together they give back the signed altitude. |
| GoPro.SpeedConversion | goproreader.cpp:117-123 | Speed entries exist exactly when speed2 > 0. The written ratio is 3.6 * speed2 / scale. |
| GoPro.GpsKeys | goproreader.cpp:80-123 | The handler always writes the six position keys, and the two speed keys only for positive speed. |
| GoPro.DopEntries | goproreader.cpp:137-150 | The DOP is written as dop / scale exactly when its token is found. |
| GoPro.AsWrittenParseGpsTime | goproreader.cpp:163-166 | As coded with Qt's two-digit year: a parse succeeds only on a "yyMMddhhmmss.zzz" shaped text naming a real calendar instant, and the year is 1900 to 1999. |
| GoPro.ParseGpsTime | goproreader.cpp:163-166 | The corrected parse: the same shape and calendar check, with the year 2000 to 2099. |
| GoPro.CenturyShift | goproreader.cpp:163-166 | Whenever Qt's parse succeeds, the corrected parse gives the same instant 100 years later. The corrected parse alone succeeds exactly on 29 February 2000, since 1900 is not a leap year. |
| GoPro.GpsTimeEntries | goproreader.cpp:158-169 | DateStamp and TimeStamp are both written, in that order, exactly when the text parses, and neither otherwise. |
| GoPro.GpsTimeText | goproreader.cpp:164-168 | The written strings are "20yy:MM:dd" and "hh:mm:ss", taken digit by digit from the text. The milliseconds are dropped. |
| GoPro.AsWrittenGpsTimeText | goproreader.cpp:164-168 | As coded, the date string is "19yy:MM:dd" and the time string "hh:mm:ss", digit by digit from the text. |
| GoPro.DateDigits | goproreader.cpp:167 | For any century, the date string is the century's two digits followed by the text's year, month and day digits. |
| GoPro.TimeDigits | goproreader.cpp:168 | The time string is the text's hour, minute and second digits. |
| GoPro.DeviceEntries | goproreader.cpp:176-185 | Make "GoPro" then Model are written exactly when the name token is found. |
| GoPro.GpsPartKeys | goproreader.cpp:194-196 | ProcessingMethod and the position keys are written exactly when there is a GPS5 token. |
| GoPro.DopKeys | goproreader.cpp:137-150 | The DOP key is written exactly when its token is found. |
| GoPro.TimeKeys | goproreader.cpp:158-169 | DateStamp and TimeStamp are written together or not at all. |
| GoPro.DeviceKeys | goproreader.cpp:176-185 | Make and Model are written together, exactly when the name token is found. |
| GoPro.FixKeys | goproreader.cpp:194-200 | With a fix, only GPS keys are written. ProcessingMethod and the position are written exactly when there is a GPS5 token, the DOP exactly when its token is found, and the date exactly when the UTC text parses. |
| GoPro.ExtractKeys | goproreader.cpp:188-204 | A failed init writes nothing. The GPS, DOP and time keys require init and a nonzero fix. Make is written whenever the name is found, fix or no fix. |
| GoPro.GoproReader.constructor | goproreader.cpp:9-12 | The reader holds the time offset, the parser's lookups and the sink's log. |
| GoPro.GoproReader.Add | goproreader.cpp:82 | A write appends one entry to the log. |
| GoPro.GoproReader.GpsFix | goproreader.cpp:26-45 | True exactly when the fix token is found with a nonzero value. |
| GoPro.GoproReader.HandleGps | goproreader.cpp:47-129 | Returns whether the GPS5 token is found. Appends exactly GpsEntries when it is, and nothing otherwise. |
| GoPro.GoproReader.AddReferences | goproreader.cpp:80-93 | Appends the crossed references and returns the absolute latitude and longitude. |
| GoPro.GoproReader.AddDms | goproreader.cpp:95-105 | The loop appends one triple per pair, in order. |
| GoPro.GoproReader.AddAltitude | goproreader.cpp:107-115 | Appends the altitude reference and the absolute altitude. |
| GoPro.GoproReader.AddSpeed | goproreader.cpp:117-123 | Appends the speed writes. |
| GoPro.GoproReader.HandleDop | goproreader.cpp:131-151 | Appends exactly DopEntries. |
| GoPro.GoproReader.HandleGpsTime | goproreader.cpp:153-171 | Appends exactly GpsTimeEntries. |
| GoPro.GoproReader.HandleDeviceName | goproreader.cpp:173-186 | Appends exactly DeviceEntries. |
| GoPro.GoproReader.HandleFix | goproreader.cpp:193-200 | With a fix, appends exactly FixEntries: the GPS writes and ProcessingMethod, then the DOP, then the time. |
| GoPro.GoproReader.Extract | goproreader.cpp:188-204 | Appends exactly ExtractEntries: the handlers in the source's order, under its conditions. |
| Heif.PrimariesOf | heifwriter.cpp:161-179 | A code below 13 selects its table entry. Any larger code selects entry 0, which is unspecified. The result is always a table entry. |
| Heif.PrimariesMapping | heifwriter.cpp:161-179 | 1 is BT.709-5. 5 and 6 are BT.601-6. 9 is BT.2020/2100. 11 is SMPTE RP 431-2. 12 is SMPTE EG 432-1. Every other code is unspecified. |
| Heif.PrimariesCode | heifwriter.cpp:161-175 | The smallest code whose table entry is the given primaries. |
| Heif.PrimariesCodeInverse | heifwriter.cpp:161-179 | Every entry is reached from its code. A code reaching a specified entry is that entry's code, or 6. |
| Heif.TransferMapping | heifwriter.cpp:182-196 | 1 is BT.709-5. 7 is SMPTE 240M. 17 is SMPTE ST 428-1. Every other code is unspecified. |
| Heif.MatrixMapping | heifwriter.cpp:199-216 | 1 is BT.709-5. 6 is BT.470-6 System B/G. 7 is SMPTE 240M. 9 is BT.2020 non-constant luminance. Every other code is unspecified. |
| Heif.SetColorProfile | heifwriter.cpp:159-219 | full_range_flag is true whatever the input. Each field comes from its own table. |
| Heif.HalfUp | heifwriter.cpp:143-144 | (n + 1) / 2 is the least r with 2r >= n. |
| Heif.SetHeifColor | heifwriter.cpp:128-157 | Both 4:2:0 formats give YCbCr, 4:2:0 chroma and three planes. Any other format gives no planes and undefined colourspace and chroma. |
| Heif.Layout420 | heifwriter.cpp:132-149 | The planes are Y, Cb, Cr, all of depth 8. Y is w x h. Cb and Cr share the smallest size whose 2x2 subsampling covers the luma plane. |
| Heif.CopyBytes | heifwriter.cpp:74-75 | memcpy: the destination bytes equal the source bytes, and the rest of the plane is unchanged. |
| Heif.CopyRow | heifwriter.cpp:73-76 | One pass of the row loop copies row h and keeps the rows before it. The plane from the end of row h on is unchanged. |
| Heif.CopyPlane | heifwriter.cpp:73-76 | Row h of the plane, at [stride*h, stride*h + stride), equals source bytes [linesize*h, linesize*h + stride). Bytes after the last row are unchanged. |
| Heif.CopyPlanes | heifwriter.cpp:52-77 | For the planes SetHeifColor lays out for the frame, every row of every plane holds its source row. Every plane keeps the bytes past its last row. |
| Heif.Unframe | heifwriter.cpp:226-231 | A framed blob is prefix + payload + suffix. |
| Heif.AddMeta | heifwriter.cpp:221-234 | The blob is "Exif" 0 0, then the encoded data, then 00 01 00 00, which is 10 bytes longer than the encoded data. Unframing it gives back exactly the encoded data. |

## Left out

- The metadata sink: Exiv2 is not part of this model. Every write is appended to a log. The difference between `operator[]` (overwrite) and `add` (append) is not modelled.
- The GPMF library calls (`GPMF_Init`, `FindNext`, `FindPrev`, `ScaledData`, `FormattedData`, `Repeat`) are foreign. Their results are the `Lookups` inputs. The `begin` stream that `handleDeviceName` advances is not modelled, because nothing reads it afterwards.
- Iso6709.ParseDecimal: models only `[+-]digits[.digits]` of Qt's `toDouble`, with 0 on failure. Exponents, whitespace and locale forms are not modelled.
- GoPro.ParseGpsTime:
  - models the fixed-width `"yyMMddhhmmss.zzz"` format with the two-digit year counted from 2000, where Qt counts it from 1900 (see Findings; Qt's parse is GoPro.AsWrittenParseGpsTime);
  - does not model Qt's other parsing leniencies;
  - does not model local-time gaps (daylight-saving changes) that make some instants invalid.
- IEEE floating point: `floor` on `double`, and the `(float)` casts in `handleGPS`, are modelled exactly over `real`. Rounding is not modelled.
- Iso6709.LocationEntries: a text with no sign after its first character writes nothing. For such a text the source indexes the string at -1 (no sign at all) or splits it at 0 (its only sign is the first character).
- Iso6709.LocationParts: does not model the source's conversion of each signed `double` part to the `uint32_t` of an Exiv2 unsigned rational, which is undefined for negative values. It writes the triple of the magnitude instead (see Findings).
- Media.XyzItem:
  - only the bytes actually read make up the location text. The source builds the string from `str_size` bytes even when the read was short, and never frees the buffer;
  - it writes the corrected Iso6709.LocationEntries. Where the source's split differs, its writes differ from the source's: for "-33.8688+151.2093/" the source writes S, W and two zero triples, and for a text with an altitude such as "+37.1234-122.5678+030.000/" it writes a zero longitude triple (see Findings);
  - every byte becomes one character. Under Qt 5, `QString::fromLatin1` of a `QByteArray` stops at the first NUL byte, so a text with an embedded NUL would be cut there. The Qt version is not part of this model.
- Media.MediaReader.VisitItem: writes what Media.XyzItem writes, so it has the same corrected location entries.
- Media.MediaReader.HandleUdta: its writes are Media.Udta's, which include Media.XyzItem's corrected location entries. For a southern latitude with an eastern longitude, or a text with an altitude, the source writes zero triples and the wrong longitude reference or a zero longitude instead.
- Media.MediaReader.Decend: its writes are Media.Level's, which include HandleUdta's corrected location entries, with the same difference from the source.
- Media.MediaReader.Extract: its writes are Decend's from offset 0, with the same difference from the source.
- Media.Level:
  - avio's seek is modelled as failing for a target outside [0, size];
  - `avio_feof` is modelled as the cursor being at or past the size;
  - an `avio_size` error code is not modelled;
  - logging (`qDebug`, `qInfo`) and the four-character text made at mediareader.cpp:35-40 are left out.
- GoPro.GoproReader.HandleGps:
  - requires at least one sample and nonzero latitude and longitude scales, because the source's division and sample read are undefined otherwise;
  - for an offset of 1000 ms or more the source asks for sample n of n, ignores the failure and reads an uninitialised sample; the model reads sample n - 1 (see Findings);
  - `long` overflow of `speed2 * 36` is not modelled.
- GoPro.GpsEntries: for an offset of 1000 ms or more the entries are those of sample n - 1, where the source's are undefined.
- GoPro.GoproReader.HandleFix: inherits HandleGps's corrected sample index; for an offset of 1000 ms or more the source's GPS writes are undefined.
- GoPro.GoproReader.Extract: inherits HandleGps's corrected sample index in the same way, and HandleGpsTime's corrected century.
- GoPro.GpsTimeEntries: writes the date with the year counted from 2000; the source writes "19yy", and writes nothing for a text naming 29 February of year 00.
- GoPro.GoproReader.HandleGpsTime: appends GpsTimeEntries, so it has the same corrected century.
- GoPro.TimeKeys: the keys appear when the corrected parse succeeds; the source's parse also fails on 29 February of year 00.
- GoPro.FixKeys: the date key follows the corrected parse, as in GoPro.TimeKeys.
- GoPro.ExtractKeys: the date key follows the corrected parse, as in GoPro.TimeKeys.
- Media.NextBox: the next sibling may start inside the current header (a declared size of 2 to 7, or a largesize of 1 to 15), as in the source. Only a box end at or before the header's first byte stops the level.
- Heif.CopyPlane: `int` overflow of `stride * h` is not modelled. Plane sizes and strides are inputs, because libheif allocates the planes.
- Heif.ColorParams: the fields are unbounded naturals rather than 32-bit unsigned values. The lookups are total, so nothing depends on the width.
- The rest of `HeifWriter::save` (encoder set-up, image creation, encoding, waiting for the metadata, the nclx and ICC profile calls, writing the file) and Exiv2's Exif encoding are library calls. The encoded Exif bytes are an input to Heif.AddMeta.
- The handlers declared in `mediareader.h` (tkhd, stsd, colr, hdlr, stco, stsz, stts, mdia) and its track-sample indexer have no code here.
- `videoprocessor.cpp`, `mainwindow.cpp`, `jp2writer.cpp`, `exiv2wrapper` and `scopedresource.h` are not part of this model.

## Findings

| source | as written | input that shows it | evidently intended | confidence | as-written member | corrected member |
|---|---|---|---|---|---|---|
| mediareader.cpp:27-62 | With size field 1, the largesize minus 16 wraps modulo 2^64. The seek to basePos + atomSize then lands back on the box's own header, and the loop reads the same box again for ever. | A seekable source with, at offset h > 0 before rangeEnd: size field 00 00 00 01, a nonzero type, and a 64-bit size of 0. | Stop the level when the box end does not lie past the first byte of the box's header. | medium, not executed | Media.AsWrittenLevelLoops | Media.NextBox |
| mediareader.cpp:106-108 | The item loop stops only when the cursor reaches rangeEnd. At the end of the source every item reads as size 0 and type 0, and the seek goes back to where the cursor already is. | A `udta` box whose declared size reaches past the end of the source. | Stop at the end of the source. `decend` stops there too: its next type code reads as 0 (mediareader.cpp:19-22). | medium, not executed | Media.AsWrittenUdtaLoops | Media.NextItem |
| goproreader.cpp:67-70 | The index is clamped to `gpsSamples`, which is one past the last sample. | A time offset of 1000 ms or more into a GPS5 token of n > 0 samples gives index n. | Clamp to the last sample, n - 1. | medium, not executed | GoPro.SubSampleIndexRange | GoPro.SampleIndex |
| mediareader.cpp:95-102 | Degrees, minutes and seconds are computed from the signed value. A western longitude or a southern latitude gives negative whole degrees, which are stored in the `uint32_t` numerator of an Exiv2 unsigned rational. That conversion is undefined for a negative `double`. | "+37.1234-122.5678/": floor(-122.5678) = -123 | Convert the magnitude and carry the sign only in the reference, as goproreader.cpp:80-105 does. | high, not executed | Iso6709.AsWrittenSignedDegrees | Iso6709.LocationUnsigned |
| mediareader.cpp:85-93 | The split is the last '-', else the last '+'. A southern latitude with an eastern longitude has its only '-' at index 0. The split is then at 0: the latitude text is empty, the longitude text is the whole string, neither parses, and the longitude reference is "W". | "-33.8688+151.2093/" writes S, W, (0, 0, 0), (0, 0, 0) | Split at the first sign after the first character. | high, not executed | Iso6709.AsWrittenSouthernSplit | Iso6709.Separator |
| mediareader.cpp:85-93 | `mid(sep)` runs to the end of the text. An ISO 6709 altitude after the longitude is then part of the longitude text, which no longer parses and is written as 0. | "+37.1234-122.5678+030.000/" writes longitude (0, 0, 0) | End the longitude at the next sign. | medium, not executed | Iso6709.AsWrittenAltitudeLosesLongitude | Iso6709.LongitudeEnd |
| goproreader.cpp:163-168 | Qt's format "yy" puts a two-digit year in 1900 to 1999. GPMF's GPSU text carries the last two digits of a year in the 2000s, so the written GPSDateStamp is a century early, and 29 February 2000 is rejected because 1900 is not a leap year. | "160420123456.000" writes GPSDateStamp "1916:04:20" | Count the year from 2000. | high, not executed | GoPro.AsWrittenGpsTimeText | GoPro.GpsTimeText |
