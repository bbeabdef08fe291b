# Delua 5.1 reader and logger, modelled in Dafny

Delua 5.1 is a decompiler for compiled Lua 5.1 files whose debug information
has been stripped. Its `main.py` has two small stateful pieces, and this
project models both:

- `Reader`, a forward-only cursor over the bytes of a chunk file. It reads one
  byte, raw or as a number, reads N raw bytes, reads a four-byte unsigned
  integer, and reads a length-prefixed string. It also keeps its own counter,
  `Pointer`, of the bytes it has *requested*. That counter is separate from the
  file position: at end of file the counter still moves by the full requested
  amount.
- `Logger`, a leveled message filter (0 = None, 1 = Info, 2 = Warning,
  3 = Error). Level 0 turns logging off. Otherwise a message is printed as
  `[<level name>] <message>` when its level is at or below the configured one.
  `SetLogLevel` accepts only levels 0..3.

Layout:

- `bytes.dfy` (module `Bytes`): bytes, byte order, and `int.from_bytes` as
  little- and big-endian values. It also has the inverse encoding and the
  round trips between the two.
- `reader.dfy` (module `Reading`): the `Reader` class, plus pure functions for
  what one file read delivers (`Take`) and where it leaves the file
  (`Advance`). The class keeps two ghost histories: the count passed to each
  file read (`requests`) and what each read returned (`delivered`). Its
  invariant `Valid` says three things. `Pointer` is the sum of the requests.
  The position is where those requests leave the file. The delivered chunks,
  joined, are exactly the bytes before the position, so reads are consecutive,
  never overlap and never go backwards.
- `logger.dfy` (module `Logging`): the `Logger` class. Console printing is
  modelled as appending to the field `output`.

The opened file is an in-memory byte sequence (`Reader.data`). Python's
`file.read(n)` is modelled as it behaves on a file opened for binary reading.
It first converts `n` to a C `Py_ssize_t` (64-bit, -2^63 to 2^63 - 1). A count
outside that range raises `OverflowError`. A count in range but below -1 raises
`ValueError`. Either error moves nothing, and the model returns it as a
`ReadResult`. With `n == -1` the read returns everything that remains. With any
other `n` it returns the next `min(n, remaining)` bytes.

## Model

| member | source | states |
|---|---|---|
| `Bytes.EffectiveOrder` | main.py:21 | an unset byte order means little-endian; a set one is used as given |
| `Bytes.Pow256` | main.py:29 | 256^n is positive (the bound every n-byte value stays below) |
| `Bytes.Pow256Monotone` | main.py:29 | fewer bytes cannot give a larger bound |
| `Bytes.LittleEndian` | main.py:29 | the little-endian value of n bytes is below 256^n |
| `Bytes.BigEndian` | main.py:29 | the big-endian value of n bytes is below 256^n |
| `Bytes.FromBytes` | main.py:21 | `int.from_bytes` is unsigned and below 256^n; no bytes give 0; one byte gives itself in either order |
| `Bytes.Reverse` | main.py:29 | the reversal has the same length and holds element i of the input at position n - 1 - i |
| `Bytes.BigEndianIsReversedLittleEndian` | main.py:29 | big-endian reading equals little-endian reading of the reversed bytes |
| `Bytes.LittleEndianFour` | main.py:27-29 | four little-endian bytes give b0 + 256·b1 + 65536·b2 + 16777216·b3, which is below 2^32 |
| `Bytes.LittleEndianBytes` | main.py:29 | the encoding that inverts little-endian decoding has exactly n bytes |
| `Bytes.DecodeEncode` | main.py:29 | decoding the n-byte encoding of v gives back v |
| `Bytes.EncodeDecode` | main.py:29 | encoding a decoded byte sequence at its own width gives back the bytes, so the decoding is injective |
| `Reading.Advance` | main.py:23-25 | a read moves the file position forward by min(n, remaining), to the end for n == -1, not at all for a refused count (below -1, or above 2^63 - 1), and never past the end |
| `Reading.Take` | main.py:23-25 | a read delivers the next min(n, remaining) bytes in stream order, ending where `Advance` leaves the position; a refused count delivers nothing |
| `Reading.SumAppend` | main.py:24 | requesting n more bytes adds n to the requested total |
| `Reading.PositionAfter` | main.py:15-34 | the position reached by any series of reads stays within the file |
| `Reading.PositionIsClampedPointer` | main.py:9-34 | when every read asks for a count from 0 to 2^63 - 1, the file position equals `Pointer` capped at the file length, and `Pointer` is not negative |
| `Reading.IntBytes` | main.py:27-29 | `ReadInt` consumes at most four bytes (fewer at end of file) |
| `Reading.IntAt` | main.py:27-29 | the integer `ReadInt` returns, such as a string's length, is below 2^32 |
| `Reading.IntAtLittle` | main.py:27-29 | with the byte order unset and four bytes left, the integer is b0 + 256·b1 + 65536·b2 + 16777216·b3 of the next four bytes |
| `Reading.TakeBetween` | main.py:33 | reading |mid| bytes (a count `read` accepts) right after `before` delivers `mid`, whatever follows |
| `Reading.ConsecutiveTakes` | main.py:32-33 | two consecutive reads after `before` deliver exactly the two consecutive pieces that follow it |
| `Reading.FramedPayload` | main.py:31-34 | a payload after its own length, encoded little-endian in any width, is delimited exactly by that length |
| `Reading.Reader.constructor` | main.py:8-13 | a new reader is at position 0, `Pointer` is 0, the byte order is unset, `SizeT` is 4, and nothing has been read |
| `Reading.Reader.FileRead` | main.py:17 | one file read raises `OverflowError` exactly for a count outside the `Py_ssize_t` range and `ValueError` exactly for one in range but below -1; otherwise it delivers `Take`; the position moves by what was delivered, the request is recorded, the invariant holds, and `Pointer` is not touched |
| `Reading.Reader.ReadByte` | main.py:15-17 | `Pointer` moves by 1; the next byte is returned and consumed, or nothing at end of file |
| `Reading.Reader.ReadByteAsInt` | main.py:19-21 | `Pointer` moves by 1; the result is the next byte's value (0..255), or 0 at end of file |
| `Reading.Reader.ReadBytes` | main.py:23-25 | `Pointer` moves by exactly `Amount` in every case; for `Amount` outside the `Py_ssize_t` range the read raises `OverflowError`, for one in range but below -1 `ValueError`, and in both cases the position stays; otherwise the result is the next min(`Amount`, remaining) bytes, or all remaining ones for -1 |
| `Reading.Reader.ReadInt` | main.py:27-29 | `Pointer` moves by 4; the result is `IntAt`, the value of the next (up to) four bytes in the reader's byte order, below 2^32 |
| `Reading.Reader.ReadString` | main.py:31-36 | reads the four-byte length `Size`, then requests exactly `Size` bytes; `Pointer` moves by 4 + `Size`; the payload is the bytes right after the prefix |
| `Reading.ReadFramedString` | main.py:23-36 | after skipping up to 2^63 - 1 bytes, `ReadString` on a length-framed payload returns that payload, and `Pointer` counts the skipped bytes, 4 and the payload |
| `Logging.LevelNames` | main.py:44-45 | the level names for 0..3 are None, Info, Warning, Error, and no two share their first letter |
| `Logging.Format` | main.py:55 | the printed line has the level name's first letter at index 1, and exactly the message after `"[" + name + "] "` |
| `Logging.FormatInjective` | main.py:45-55 | two printed lines are equal only for the same message and level |
| `Logging.Emitted` | main.py:50-55 | `Send` prints at most one line; it prints one iff logging is on and the message level is at or below the configured level; that line is `"[" + Levels[Level] + "] " + Message` |
| `Logging.LowerLevelsPass` | main.py:54 | a message that passes the filter at some level would pass at every lower level |
| `Logging.RaisingLevelKeepsMessages` | main.py:50-55 | raising the configured level never hides a message that was shown |
| `Logging.InvalidLevelWarning` | main.py:58-59 | the warning about a rejected level is printed, as `[Warning] Invalid LogLevel`, exactly when the current level is 2 or more |
| `Logging.Logger.constructor` | main.py:47-48 | the configured level is taken as given and nothing has been printed |
| `Logging.Logger.Send` | main.py:50-55 | the output grows by exactly what `Emitted` says, and the level is unchanged |
| `Logging.Logger.SetLogLevel` | main.py:57-62 | a level in 0..3 replaces the configured level and prints nothing; any other level leaves the level unchanged and sends `"Invalid LogLevel"` at level 2; a valid configured level stays valid |

## Left out

- Opening and closing the file (`open` in `__init__`, `Close`): the file is an in-memory byte sequence given to the constructor, so there is nothing to close.
- Read failures of the operating system (an `OSError` from `read`) are not modelled, and neither is the `MemoryError` that a huge accepted count can raise when `read` allocates its buffer up front. A read at end of file is modelled, and it delivers fewer bytes.
- Reading.Reader.ReadString: returns the raw payload bytes; the UTF-8 decoding (and the `UnicodeDecodeError` it can raise) is not modelled.
- Logging.Logger.Send: requires a level in 0..3. A negative level always passes the filter once `LogLevel` is 1 or more. Python then indexes `Levels` from the end for a level from -4 to -1, and raises `IndexError` for a level of -5 or below. A level above 3 that passes the filter also raises `IndexError`. None of this is modelled.
- Console printing is modelled as appending a line to `Logger.output`.
- `SizeT` is kept as a field that the constructor sets to 4 and nothing reads, as in the source.
- Nothing in the source sets `endian` to anything but unset, so the big-endian reading is modelled in `FromBytes` but no method changes the byte order.
- The source has no header checks, prototype, instruction or constant decoding, and no decompiler; there is nothing of that to model.
