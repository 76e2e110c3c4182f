# Vitis: terminal screen, turn protocol and conversation broker

Vitis lets agent command line programs talk to each other over pseudo-terminals. This project models the
three parts of it that carry state, and proves what each is for:

1. **The screen** (`internal/terminal`). `Screen` is a class over a heap of row arrays that are allocated
   late and moved by reference. It is proved to refine `Terminal`, a value with an infinite grid. What the
   control functions mean is then proved about the terminal: the algebra of scrolling, erasing in reading
   order, cursor addressing, where a stream may be cut into writes, and agreement with the linear normaliser
   on plain text. Two places where the code leaves ECMA-48 are modelled as they are: DCH with a count beyond
   the end of the line (section 8.3.26), and minus signs in parameters (section 5.4), which may shift a line
   to the right, throw the cursor off the grid and then make a later sequence index out of range. `Safe` is
   the condition that no index is out of range; it is all that `Write` requires.
2. **Turns over a pseudo-terminal** (`internal/peer/provider`, `internal/conversation/envelope.go`). The
   marker search is exact; one turn is a round trip whatever the chunks and whatever the echo does to line
   ends; over whole conversations on a terminal that echoes, no answer contains anything but its own reply, and
   conversations made of the program's own envelopes are such conversations.
   Without echo the answer is everything since the last reset, and it is stated exactly when that includes
   something of the turn before.
3. **The conversation** (`internal/conversation`, `internal/terminator`, `internal/bus/inproc`,
   `internal/cli/converse_npeer.go`). The bus is a class over channels that refines a state machine, whose
   runs deliver faithfully. The broker's loop is a method proved against an independent account of who
   speaks in round k. Broker, sentinel goroutine and bus together form a step system; its theorems hold for
   every interleaving, and each of its runs is a run of the loop. The flag parser is a round trip and gives the broker what it relies on.

## How it is built

Code that changes state is imperative here too: classes `Screen`, `PersistentProcess`, `Bus`, `Subscription`
and `Channel`, and methods with loops for the scanners, parsers and the broker. Each is proved equal to a
function on values, and the laws are lemmas about those functions. What the functions mean is said
without them: from the bytes of a control to the cells, from the pieces of a text to what is visible, from the
letters of an envelope to the message in it, and from the log of a run to what was sent on, to whom, and why it
ended. The modules follow the source; `Sequences` and `Wrappers` hold what several of them share:

| modules | source |
|---|---|
| `Utf8`, `ControlSequences`, `Terminal`, `TerminalLaws`, `ControlLaws`, `WriteCuts`, `Screen` | `internal/terminal/screen.go` |
| `Normalizer`, `NormalizerLaws`, `PlainText` | `internal/terminal/ansi.go` |
| `Text`, `MarkerSearch`, `PersistentProcess`, `TurnStream`, `TurnIsolation`, `SilentTurns`, `PeerRuns`, `TurnOutcomes` | `internal/peer/provider/persistent.go` |
| `ProviderTransport` | `internal/peer/provider/provider.go` |
| `Envelope`, `EnvelopeText`, `EnvelopeTurns` | `internal/conversation/envelope.go`, `internal/conversation/marker.go` |
| `Lines`, `Sentinel`, `SentinelProtocol` | `internal/terminator/sentinel.go` |
| `Policy`, `TrailerLaws` | `internal/conversation/policy/` |
| `FlagParser`, `FlagLaws`, `PeerConfig`, `ConfigLaws` | `internal/cli/converse_npeer.go` |
| `BusModel`, `BusRuns`, `InprocBus` | `internal/bus/inproc/inproc.go` |
| `Broker`, `BrokerLaws`, `MessageLaws`, `ProtocolRuns` | `internal/conversation/broker.go` |

Where the code and its comments differ, the model follows the code:

- `StripSentinel` is described as removing the first occurrence of the token; the code drops that line and
  everything behind it. It does what the comment says if and only if nothing but white space stands behind
  the token's line (`Sentinel.StripsFirstExactly`); "a\n<<END>>\nb" is a response that loses its last line
  (`Sentinel.StripDropsTheRest`).
- `stripEnvelopeEcho` is described as returning its input without an echo; then the answer is not trimmed
  either, and it begins with whatever arrived since the last reset (`SilentTurns.LookAt`). What is left of
  the turn before is in it if and only if not all of that turn had been emitted when the buffer was reset
  (`PeerRuns.SilentTurnsTakeTheLateRest`).
- DCH is correct for counts up to the end of the line and for blank left neighbours, and for nothing else
  (`Terminal.DeleteCellsMeetsStandard`, an equivalence).
- A write may be continued in another write at exactly those places where no continuation makes a token
  straddle the cut (`WriteCuts.CutIsExact`, an equivalence). The program itself writes a recording at once.
- The marker search can skip a valid occurrence. There is a buffer in which it does if and only if the marker
  can overlap itself at a distance such that the part in front of the overlap has a line feed with nothing
  but horizontal white space behind it (`MarkerSearch.SearchLimit`). Every such marker has a line feed; the
  markers the program makes have none.
- The sentinel's verdict for a turn may arrive after the broker has stopped waiting for it; then the run
  ends one turn late (`SentinelProtocol.LateVerdictEndsOneTurnLater`). A run that has ended has exactly k
  turns and the sentinel's status if and only if the drain behind turn k was not left by the timer
  (`SentinelProtocol.DrainDecides`).
- `README.md:81` of the program says that `--opener` names the peer that opens. An opener called "a" is taken
  for the default and replaced by the first declared peer (`PeerConfig.OpenerAIsReplaced`); every other one
  is kept (`PeerConfig.OpenerIsKept`, an equivalence).

## Model

| member | source | states |
|---|---|---|
| Screen.Screen.constructor | internal/terminal/screen.go:35-46 | A new screen, with the default width for a width of zero or less, stands for the blank terminal of that size; no row exists yet. |
| Screen.Screen.Write | internal/terminal/screen.go:48-124 | For all bytes on whose way no index is out of range, the lazily grown rows read as a padded grid, the cursor, the saved cursor and the margins are afterwards those of the pure terminal fed the same bytes; rows keep their width and no two rows share an array. |
| Screen.Screen.Step | internal/terminal/screen.go:50-122 | One pass of the scanner's loop consumes exactly one token of the byte language and does to the screen what that token does to the terminal, wherever the cursor is. |
| Screen.Screen.EnsureRow | internal/terminal/screen.go:126-134 | Growing the buffer is invisible: of the terminal it stands for only the number of rows changes, old rows stay, new rows have new arrays. |
| Screen.Screen.WriteRune | internal/terminal/screen.go:136-149 | At most one cell changes, none if the cursor is beside the grid, and the cursor moves on or wraps to the next line. |
| Screen.Screen.DoScrollUp | internal/terminal/screen.go:153-174 | Moving row references and adding fresh rows comes to scrolling the region of the infinite grid, without two places sharing an array. |
| Screen.Screen.DoScrollDown | internal/terminal/screen.go:178-195 | The same downwards. |
| Screen.Screen.NewLine | internal/terminal/screen.go:97-103 | A line feed scrolls on the bottom margin and moves the cursor elsewhere. |
| Screen.Screen.HandleCSI | internal/terminal/screen.go:205-335 | Every control sequence whose indices are in range, with any parameters and any cursor, does to the buffer what it does to the terminal, and keeps the rows apart. |
| Screen.Screen.MoveTheCursor | internal/terminal/screen.go:207-323 | The cursor, save, restore and margin sequences change the cursor fields as on the terminal, whatever the parameters; the margins stay in range. |
| Screen.Screen.EraseInDisplay | internal/terminal/screen.go:239-270 | ED on the rows that exist is ED on the infinite page, including cursor rows that were never allocated; it requires just that the cells it indexes are there. |
| Screen.Screen.EraseInLine | internal/terminal/screen.go:272-289 | EL likewise. |
| Screen.Screen.DeleteInLine | internal/terminal/screen.go:291-302 | The overlapping copy and the blanking loop delete n characters as the terminal does, or for a negative n shift the rest of the line to the right; it requires just that the two slice bounds are in range. |
| Screen.Screen.Lines | internal/terminal/screen.go:339-350 | The lines are those the padded grid shows, however many rows exist. |
| Screen.Screen.Content | internal/terminal/screen.go:353-355 | The text is any such list of lines joined by line feeds. |
| Terminal.ShowsOneText | internal/terminal/screen.go:339-355 | A grid shows only one list of lines, so Lines and Content are functions of the padded grid. |
| Terminal.DeleteCellsMeetsStandard | internal/terminal/screen.go:291-302 | DCH as coded equals DCH of section 8.3.26 of ECMA-48 if and only if no cell left of the cursor among the last n of the row has a character; in particular for n up to the end of the line. |
| Terminal.DeletePastEndBlanksToTheLeft | internal/terminal/screen.go:297-301 | A concrete row in which a count past the end of the line destroys a character left of the cursor. |
| Terminal.SignSafeIsExact | internal/terminal/screen.go:205-335 | A control sequence keeps a cursor on the grid exactly when its sign condition holds; DCH, ED, EL, SU and SD always do. |
| Terminal.OnlyDeleteGoesWrong | internal/terminal/screen.go:291-302 | With the cursor on the grid, every index is in range except exactly for DCH on an existing row with a count that reaches left of the row. |
| Terminal.UnsignedIsSafe | internal/terminal/screen.go:357-386 | Parameters without a minus sign keep the cursor on the grid and every index in range. |
| Terminal.Apply | internal/terminal/screen.go:50-122 | Every token keeps the size, the width of the rows and the margins, wherever the cursor is. |
| Terminal.StaysValid | internal/terminal/screen.go:50-122 | Every token keeps the cursor and the saved cursor on the grid if they are there and its sign condition holds. |
| Terminal.Feed | internal/terminal/screen.go:48-124 | Every byte string keeps the size, the width of the rows and the margins. |
| ControlLaws.NewScreenIsBlank | internal/terminal/screen.go:35-46 | A new screen is blank, 80 columns wide for a width of zero or less, with the cursor in the corner and the page for its region. |
| ControlLaws.ScrollsUp | internal/terminal/screen.go:325-327 | What every cell holds behind the bytes of ESC [ n S: the region moved up by n, blank lines at its end, everything else as it was. In these laws n may be spelled with question marks in front and more numbers behind; missing, malformed or too large it counts as the default. |
| ControlLaws.ScrollsDown | internal/terminal/screen.go:329-331 | The same for ESC [ n T: the region moved down, blank lines at its start. |
| ControlLaws.ErasesCells | internal/terminal/screen.go:239-289 | What every cell holds behind the bytes of ESC [ n J and ESC [ n K, with and without a number: the cells from the cursor on, up to it, or all are blank, in reading order, on the page or in the line, and no others. |
| ControlLaws.DeletesCells | internal/terminal/screen.go:291-302 | What every cell of the cursor's line, and of any other, holds behind the bytes of ESC [ n P. |
| ControlLaws.MovesCursor | internal/terminal/screen.go:212-237 | Where exactly the cursor is behind the bytes of ESC [ n A, B, C, D, E, F, G and d; nothing else changes. |
| ControlLaws.AddressesCell | internal/terminal/screen.go:207-210 | Behind ESC [ m ; n H, or f, the cursor is in line m and column n counted from one, with one for a missing number and the last line or column for one beyond; nothing else changes. |
| ControlLaws.SetsRegion | internal/terminal/screen.go:311-323 | Behind ESC [ m ; n r the region is lines m to n, with the page's ends for missing numbers and those beyond, or the page if no two lines remain; the cursor is home and the text stays. |
| ControlLaws.RestoresCursor | internal/terminal/screen.go:304-309 | ESC [ u brings the cursor back to where ESC [ s found it, whatever bytes without another save were written in between, and changes nothing else. |
| ControlLaws.ReturnsAndBacksUp | internal/terminal/screen.go:94-108 | Carriage return and backspace move the cursor to column zero and one column to the left. |
| ControlLaws.FeedsLine | internal/terminal/screen.go:97-103 | A line feed moves the cursor down, or on the bottom line of the region moves every line of the region up, the column as it was. |
| ControlLaws.DroppedHasNoEffect | internal/terminal/screen.go:53-113 | Other control characters, two-byte escapes, character set designations, operating system commands and all other control sequences change nothing, whatever follows. |
| ControlLaws.BadByteHasNoEffect | internal/terminal/screen.go:114-119 | Nor does a byte that starts no encoding of a rune. |
| ControlLaws.PrintsInReadingOrder | internal/terminal/screen.go:114-149 | Any printed runes stand on the cells behind the cursor in reading order, from one line to the next, and the cursor behind them; no other cell changes. |
| TerminalLaws.UnsignedStreamIsSafe | internal/terminal/screen.go:48-124 | A condition on the bytes alone, no minus sign in any parameter string, keeps every index in range and the cursor on the grid. |
| TerminalLaws.SignedStreamLeavesTheGrid | internal/terminal/screen.go:215-217 | ESC [ - 1 B on a fresh screen puts the cursor in row -1, and ESC [ K then indexes that row. |
| TerminalLaws.WritesCompose | internal/terminal/screen.go:48-124 | Cutting a stream wherever the scanner is at the top of its loop gives the same screen, and the same indices are in range; across CSI, OSC, charset and UTF-8 tokens. |
| WriteCuts.CutIsExact | internal/terminal/screen.go:48-124 | From any state: all continuations of a may be written separately if and only if the scanner reaches the end of a in front of all of them. |
| WriteCuts.EscapeDoesNotCompose | internal/terminal/screen.go:53-92 | Any escape sequence that a continuation would complete swallows an x that is printed when the write is cut. |
| WriteCuts.RuneDoesNotCompose | internal/terminal/screen.go:115-121 | Any rune that a continuation would complete is lost when the write is cut. |
| TerminalLaws.CutInsideTokenDiffers | internal/terminal/screen.go:54-57 | A concrete cut inside a token that changes the screen. |
| TerminalLaws.ScrollUpAdds | internal/terminal/screen.go:153-174 | Scrolling up by m and then n is scrolling up by m + n, beyond the region's size as well. |
| TerminalLaws.ScrollDownAdds | internal/terminal/screen.go:178-195 | The same downwards. |
| TerminalLaws.ScrollUpIsRepeated | internal/terminal/screen.go:325-327 | SU by n is n scrolls by one. |
| TerminalLaws.ScrollDownIsRepeated | internal/terminal/screen.go:329-331 | SD by n is n scrolls by one. |
| TerminalLaws.ScrollDownAfterUp | internal/terminal/screen.go:153-195 | Down undoes up except for the lines lost at the top, which come back blank; rows outside the margins never change. |
| TerminalLaws.LineFeedsScroll | internal/terminal/screen.go:97-103 | With the cursor on the bottom margin, n line feeds and the bytes of ESC [ n S leave the same screen. |
| TerminalLaws.ErasesInReadingOrder | internal/terminal/screen.go:239-289 | ED and EL blank exactly the cells at or behind, at or before, or everywhere around the cursor in the reading order of the page, and no other cell. |
| TerminalLaws.MovesCancel | internal/terminal/screen.go:212-229 | Down and up, right and left within the line, and next and preceding line by the same count cancel. |
| ControlSequences.ScanPrefix | internal/terminal/screen.go:50-122 | A token that ends inside a stream is the same whatever follows. |
| ControlSequences.ScanShift | internal/terminal/screen.go:50-122 | A token does not depend on what precedes it. |
| ControlSequences.ParseShow | internal/terminal/screen.go:357-370 | A printed number up to the 64-bit maximum is parsed back. |
| Utf8.DecodeEncoded | internal/terminal/screen.go:115-121 | The encoding of a scalar value (section 3 of RFC 3629) decodes to it wherever it stands. |
| Utf8.DecodedIsEncoding | internal/terminal/screen.go:115-121 | What is accepted is the shortest encoding of a scalar value: no overlong form, no surrogate. |
| Normalizer.NormalizePTYText | internal/terminal/ansi.go:7-53 | The nested loops compute the normalised text. |
| Normalizer.NormalizedIsProjection | internal/terminal/ansi.go:7-53 | The output has only tab, LF and printable bytes; normalising twice is normalising once; clean text, and only clean text, is left alone; the final replacement never changes anything. |
| NormalizerLaws.NormalizedIsVisible | internal/terminal/ansi.go:7-53 | For a text of printable pieces, line ends, lone returns, control sequences up to their letter, commands up to BEL or ESC \, two-byte escapes and other control bytes: the result is the printable pieces with one line feed for each line end and lone return, and nothing else. |
| NormalizerLaws.EveryTextHasPieces | internal/terminal/ansi.go:7-53 | Every byte string is such a text, an unfinished sequence at its end included. |
| PlainText.ScreenAgreesWithNormalizer | internal/terminal/ansi.go:7-53 | For printable lines that fit and do not end in a space, the last not empty, an unbounded screen shows exactly the lines, and their text is what the normaliser makes of the same bytes. |
| MarkerSearch.IsHorizontalWhitespace | internal/peer/provider/persistent.go:72-79 | True just for text of spaces, tabs and carriage returns. |
| MarkerSearch.IsAlone | internal/peer/provider/persistent.go:51-61 | The two walks to the ends of the line decide whether the marker is alone on it. |
| MarkerSearch.FindLineAnchoredMarker | internal/peer/provider/persistent.go:40-70 | The loop computes the search function. |
| MarkerSearch.SearchIsExact | internal/peer/provider/persistent.go:40-70 | For every buffer and every non-empty marker without LF the result is the least position where the marker is alone on its line, or -1 just when there is none; the jump behind a mid-line occurrence skips nothing. |
| MarkerSearch.FindsTheFirstOnItsLine | internal/peer/provider/persistent.go:40-79 | In letters: what is found is the first marker that has only blanks, tabs and returns beside it between two line feeds or the ends of the buffer; with anything else beside it a marker is passed over. |
| MarkerSearch.SearchLimit | internal/peer/provider/persistent.go:40-70 | For every non-empty marker, with or without LF: the search is exact on all buffers if and only if the marker does not overlap itself behind a line feed that only horizontal white space follows. |
| MarkerSearch.LineFeedMarkerSkips | internal/peer/provider/persistent.go:64-66 | A concrete marker with LF, and a buffer in which its valid occurrence is skipped. |
| MarkerSearch.StripEnvelopeEcho | internal/peer/provider/persistent.go:99-128 | The walk and the two trimming loops compute the text behind the echoed instruction line, trimmed. |
| Text.TrimShape | internal/peer/provider/persistent.go:117-126 | Trimming takes white space off both ends and nothing else: the text is the trimmed text between two stretches of white space, and the trimmed text begins and ends with none. |
| Text.TrimIs | internal/peer/provider/persistent.go:117-126 | Line feeds, returns, blanks and tabs around a text that neither begins nor ends with one of them are what is taken off. |
| EnvelopeText.LaterEnvelopeSays | internal/conversation/envelope.go:43-75 | The body of a later envelope letter by letter: id, number, cap and sender in its header, the previous reply whole and on lines of its own, the instruction with the marker. |
| EnvelopeText.FirstEnvelopeSays | internal/conversation/envelope.go:13-75 | The body of a first envelope begins with the briefing and holds the seed of slot a for a, and the other seed for all others. |
| EnvelopeText.NumbersAreRead | internal/conversation/envelope.go:62-64 | The numbers of the header are decimal and read back. |
| EnvelopeText.MessageIsRead | internal/conversation/envelope.go:62-75 | Between the first line and the instruction of any later body stands the previous reply, for every reply. |
| Envelope.HeadContainsNot | internal/conversation/envelope.go:62-75 | If id, sender and content do not have the marker, nothing in front of the instruction does, across all seams. |
| Envelope.HeaderContainsNot | internal/conversation/envelope.go:62-64 | The header line does not have the marker, whatever the numbers. |
| Envelope.MarkerHasMarkerChars | internal/conversation/marker.go:14-32 | A token of the generated shape consists of hex digits and the letters of its prefix. |
| TurnStream.SearchInPart | internal/peer/provider/persistent.go:249-250 | In every initial part of a turn's bytes the search finds nothing until the peer's own marker has arrived whole, and then exactly that, never the echoed one. |
| TurnStream.StripInStream | internal/peer/provider/persistent.go:251 | What precedes the peer's marker, without leftover and echo, is the trimmed reply. |
| TurnIsolation.EchoOfEnvelope | internal/conversation/envelope.go:62-75 | The bytes of an echoed envelope, raw or with CR LF, are those of a turn up to its reply. |
| TurnIsolation.OneTurn | internal/peer/provider/persistent.go:217-282 | However echo, reply and marker are cut into chunks, the turn returns the trimmed reply and leaves an empty buffer. |
| TurnIsolation.EnvelopeRoundTrip | internal/conversation/envelope.go:43-53 | For every conversation id, sender, content and reply without the marker, a later envelope written, echoed with or without CR, answered and read returns exactly the trimmed reply; the peer may end its lines with LF or CR LF and put blanks and tabs around the marker. |
| TurnIsolation.FirstEnvelopeRoundTrip | internal/conversation/envelope.go:13-36 | The same for the first envelope behind its briefing. |
| EnvelopeTurns.EmitsTheEnvelope | internal/conversation/envelope.go:13-53 | What the terminal emits in such a turn is the echo of the envelope the program builds, first or later, then the reply, the end of its line in LF or CR LF, the marker with blanks and tabs around it, and the rest. |
| EnvelopeTurns.EnvelopesAreFair | internal/conversation/envelope.go:13-75 | Every conversation of the program's envelopes, of any length, is one the isolation theorem speaks of, if each marker is new to the texts of its own exchange and to what is left of the one before. |
| EnvelopeTurns.EveryAnswerIsItsReply | internal/peer/provider/persistent.go:180-282 | In every run of such a conversation each answer is the trimmed reply to its own envelope. |
| TurnIsolation.WithoutEchoNothingIsTrimmed | internal/peer/provider/persistent.go:103-107 | Without an echo the answer keeps its white space, line feed before the marker included. |
| SilentTurns.LookAt | internal/peer/provider/persistent.go:249-262 | A look at any part of a turn, echoed or not, behind any late rest of the turn before: once the peer's marker is there whole the answer is, with echo, the trimmed reply, and without echo the late rest, the reply and its line end; before that the buffer stays. |
| TurnOutcomes.FirstEndDecides | internal/peer/provider/persistent.go:245-278 | For every sequence of events without an answer: the first end of process, context or time decides the outcome, and the buffer keeps what has arrived; without one the turn waits. |
| TurnOutcomes.TooMuchOverflows | internal/peer/provider/persistent.go:245-262 | As soon as more than 64 MiB have arrived without an answer the turn overflows, whatever comes next. |
| PersistentProcess.PersistentProcess.Pump | internal/peer/provider/persistent.go:180-209 | Output is appended, the end of output or process sets the flag, nothing else changes. |
| PersistentProcess.PersistentProcess.Look | internal/peer/provider/persistent.go:247-278 | One pass of the waiting loop is one look of the pure turn, with the tests in the source's order. |
| PersistentProcess.PersistentProcess.ConverseTurn | internal/peer/provider/persistent.go:217-282 | The waiting loop computes, for every sequence of events, the outcome and the buffer of the pure turn; an empty marker or a failed write change nothing. |
| PersistentProcess.PersistentProcess.DrainAvailable | internal/peer/provider/persistent.go:306-315 | Returns what is unread and moves the cursor to the end, unless it is there already; the buffer stays. |
| PeerRuns.StepKeeps | internal/peer/provider/persistent.go:180-282 | Writing, emitting, pumping, ending and looking keep the invariant that the buffer is a window of the emitted bytes that starts behind the last marker. |
| PeerRuns.TurnsAreIsolated | internal/peer/provider/persistent.go:180-282 | In every run of every conversation with fresh markers the answer of a turn that the terminal echoes is exactly its trimmed reply: no echo, nothing from the turn before, whether it came before or after the reset and whether or not that turn was echoed. |
| PeerRuns.SilentTurnsTakeTheLateRest | internal/peer/provider/persistent.go:249-260 | In every such run the answer of a turn without echo is what was emitted since the last reset up to the marker; it is the reply and its line end alone if and only if everything before the turn had been emitted when the buffer was reset. |
| PeerRuns.LookAnswersExactly | internal/peer/provider/persistent.go:245-265 | A look returns an answer if and only if the marker of the turn has reached the buffer, whatever the signals say. |
| PeerRuns.EveryTurnCanBeAnswered | internal/peer/provider/persistent.go:180-282 | Every conversation with fresh markers, of any length, has a run that answers all its turns. |
| PeerRuns.ConverseIsRun | internal/peer/provider/persistent.go:217-282 | Every turn of the wrapper, with whatever events and signals, is a run of these steps with the same buffer and the same outcome. |
| Sentinel.ContainsOnOwnLine | internal/terminator/sentinel.go:123-133 | True just when the token is not empty and some line trims to it. |
| Sentinel.StripSentinel | internal/terminator/sentinel.go:139-157 | The loop over the lines computes the stripped text. |
| Sentinel.SentinelNeverLeaks | internal/terminator/sentinel.go:123-157 | The stripped text has no line that trims to the token; stripping is idempotent; it changes the text exactly when the terminator sees the token; it keeps an initial part. |
| Sentinel.StripsFirstExactly | internal/terminator/sentinel.go:135-157 | For all responses and tokens: the result is the response without the first token line, as documented, if and only if only white space stands behind that line. |
| Sentinel.StripDropsTheRest | internal/terminator/sentinel.go:135-157 | A concrete response that loses the line behind the token. |
| Lines.SplitJoin | internal/terminator/sentinel.go:143-156 | Splitting undoes joining lines without line feeds. |
| Lines.JoinSplit | internal/terminator/sentinel.go:143-156 | Joining undoes splitting. |
| Lines.TrimSpaceRemoves | internal/terminator/sentinel.go:128-148 | Trimming takes white space runes off both ends of arbitrary bytes and nothing else, leaves none there, and is idempotent. |
| Lines.SpaceIsDecoded | internal/terminator/sentinel.go:128-148 | The white space seen at the start of a text is what decoding its first rune gives, of the same length; an invalid byte is none. |
| Lines.LastSpaceIsDecoded | internal/terminator/sentinel.go:128-148 | The same for the last rune, decoded backwards from the end. |
| SentinelProtocol.StepIsHonest | internal/terminator/sentinel.go:76-117 | Every step of broker, sentinel or bus keeps: a verdict that is held, queued, drained or obeyed has a turn with the token behind it. |
| SentinelProtocol.SentinelEndingHasToken | internal/conversation/broker.go:190-255 | Under every interleaving a run that ends with the sentinel's status has a turn in its log in which the token stands on a line of its own. |
| SentinelProtocol.SentinelInTimeEndsTheRun | internal/conversation/broker.go:236-255 | If the sentinel has dealt with a turn that has the token before the broker drains behind turn k, the timer cannot end that drain, and every continuation stays k turns long, can end only with the sentinel's status, is never stuck before, and has boundedly many steps left. |
| SentinelProtocol.TimeOutMakesTheRunLonger | internal/conversation/broker.go:413-433 | In every run, calm or not: once the timer has ended the drain behind turn k, the sentinel's status comes only with more than k turns. |
| SentinelProtocol.DrainDecides | internal/conversation/broker.go:236-255 | A calm run that has ended has exactly k turns and the sentinel's status if and only if the drain behind turn k was not left by the timer. |
| SentinelProtocol.InTimeRun | internal/terminator/sentinel.go:76-117 | For every response with the token there is a calm run in which the sentinel is done before the broker drains. |
| SentinelProtocol.CommittedStep | internal/conversation/broker.go:413-445 | Each step behind that point keeps the broker bound to end, and every step of broker or sentinel uses up work. |
| SentinelProtocol.LateVerdictEndsOneTurnLater | internal/conversation/broker.go:413-433 | A run in which the verdict misses its drain and the conversation ends one turn after the token. |
| ProtocolRuns.ProtocolRunIsBrokerRun | internal/conversation/broker.go:162-274 | Every finished run of the step system is a run of the broker's loop, for any peers: rounds exist with the same responses, the same number of turns and the same status. |
| ProtocolRuns.StepAccounts | internal/conversation/broker.go:162-255 | Each step either leaves the rounds as they are or completes one that the loop would end, or go on from, in the same way. |
| Policy.ParseNextTrailer | internal/conversation/policy/addressed.go:46-68 | The backward loop finds the trailer of the last line with text. |
| Policy.MatchNextIsRegex | internal/conversation/policy/addressed.go:24-27 | The parser accepts exactly what the regular expression matches, with the same id in the group. |
| TrailerLaws.TrailerIsExact | internal/conversation/policy/addressed.go:24-68 | For all replies and ids: the id is found if and only if the reply ends in a line <<NEXT: id>> with blanks around the id and nothing but white space behind it. |
| Policy.TrailerIsObeyed | internal/conversation/policy/addressed.go:71-75 | A trailer that names another declared peer on the last line decides, whatever precedes it. |
| Policy.NextIsAnotherPeer | internal/conversation/policy/addressed.go:71-81 | The next speaker is always declared and, among two or more distinct peers, never the one that spoke. |
| Policy.RoundRobinAfter | internal/conversation/policy/roundrobin.go:9-19 | The loop returns the peer behind the current one, and the first one behind the last or an unknown one. |
| FlagParser.ParseKeyValueList | internal/cli/converse_npeer.go:104-169 | The index-moving loop computes the grammar's parse, with the same error. |
| FlagParser.ReadQuoted | internal/cli/converse_npeer.go:128-146 | The quoted branch undoes the escapes and stops behind the closing quote. |
| FlagParser.ParsePrinted | internal/cli/converse_npeer.go:104-169 | For every list of pairs with legal keys and values of arbitrary bytes, each value printed quoted and escaped or bare where that is possible, parsing gives the list back. |
| FlagParser.ParsedKeysAreLegal | internal/cli/converse_npeer.go:104-169 | Every accepted input yields keys that are trimmed, not empty and without separators. |
| FlagParser.ParsedPrintsBack | internal/cli/converse_npeer.go:104-169 | Printing what was accepted gives a text that parses to the same pairs. |
| FlagLaws.ListGoesOn | internal/cli/converse_npeer.go:104-169 | Behind any printed list and a comma, what follows is parsed as it would be alone: its pairs are put behind, its mistake is the mistake of the whole, and nothing may follow. |
| FlagLaws.BlanksAroundKey | internal/cli/converse_npeer.go:107-124 | Blanks and tabs around a key do not matter, whatever follows the '=' sign. |
| FlagLaws.BlanksAroundValue | internal/cli/converse_npeer.go:147-154 | Nor do those around a value without quotes. |
| FlagLaws.MistakesAreRefused | internal/cli/converse_npeer.go:104-169 | The four mistakes, each with its error: no '=' sign, no key, a quote that is not closed, something other than a comma behind a closing quote. |
| FlagLaws.EscapesByLetter | internal/cli/converse_npeer.go:128-146 | A quoted value with a comma, a quote and a backslash, letter by letter. |
| PeerConfig.ParsePeerSpec | internal/cli/converse_npeer.go:50-81 | One flag is accepted or refused with the error of the first check that fails. |
| PeerConfig.ParseNPeerSpecs | internal/cli/converse_npeer.go:191-236 | Accepted if and only if there are 2 to 16 good flags with distinct ids and seeds and a declared opener; then the declarations are the flags' in order. Otherwise refused with everything that is wrong, in order. |
| PeerConfig.ErrorsAreExact | internal/cli/converse_npeer.go:191-236 | The list of what is wrong is empty exactly when the flags are those a run starts with. |
| ConfigLaws.FlagMeans | internal/cli/converse_npeer.go:50-81 | What a flag with any pairs declares: the last value of each key, other known keys as options; refused with the first unknown key, a missing or invalid id, or a missing provider. |
| ConfigLaws.SeedsAreBroadcast | internal/cli/converse_npeer.go:200-219 | Every peer of an accepted run has the seed of its flag, or the broadcast one if its flag has none. |
| ConfigLaws.ErrorsSayWhatIsWrong | internal/cli/converse_npeer.go:191-236 | Each error is reported if and only if it is there: fewer than 2 or more than 16 flags, a bad flag, a repeated id, a missing seed, an opener that no flag declares. |
| PeerConfig.OpenerIsKept | internal/cli/converse_npeer.go:221-230 | For all accepted flags and every opener that was asked for: it opens if and only if it is not "a" or "a" is declared first. |
| PeerConfig.OpenerAIsReplaced | internal/cli/converse_npeer.go:222-225 | Peers bob and a with opener a are accepted, and bob opens. |
| PeerConfig.ToV2Conversation | internal/cli/converse_npeer.go:241-255 | Participants in declared order and, for distinct ids, one seed for each. |
| PeerConfig.AcceptedConfigIsUsable | internal/cli/converse_npeer.go:191-236 | Accepted flags give the broker 2 to 16 valid, distinct ids, each with provider and seed, and an opener among them. |
| PeerConfig.FlagDeclares | internal/cli/converse_npeer.go:50-169 | Every declaration with a valid id and a provider, whatever its texts and options hold, can be written as one flag that parses to just that declaration. |
| PeerConfig.WrittenFlagsAreAccepted | internal/cli/converse_npeer.go:191-236 | The round trip of a configuration: 2 to 16 such declarations with distinct ids and a seed each, written as flags, are accepted with any of them as opener; the only configuration they describe has the declarations as they were, in order, and that opener, or the first peer for the default one. |
| InprocBus.Channel.TrySend | internal/bus/inproc/inproc.go:128-132 | A send that does not wait: appended if there is room, dropped if not; never on a closed channel. |
| InprocBus.Channel.CloseChannel | internal/bus/inproc/inproc.go:141-142 | Closing requires an open channel, and keeps what is buffered. |
| InprocBus.Subscription.Deliver | internal/bus/inproc/inproc.go:122-133 | A closed subscription ignores the message, a full one drops it, an open one queues it. |
| InprocBus.Subscription.CloseSubscription | internal/bus/inproc/inproc.go:135-143 | Closing is idempotent and closes the channel at most once. |
| InprocBus.Bus.Publish | internal/bus/inproc/inproc.go:64-74 | Refines the publish step: every live subscriber of the topic, in order, and no other; an error just on a closed bus. |
| InprocBus.Bus.Subscribe | internal/bus/inproc/inproc.go:79-102 | Refines the subscribe step with a fresh channel. |
| InprocBus.Bus.CancelSubscription | internal/bus/inproc/inproc.go:88-100 | Refines the cancel step; repeating it changes nothing more. |
| InprocBus.Bus.CloseBus | internal/bus/inproc/inproc.go:106-120 | Refines the close step: every live subscription closed once, all lists gone. |
| InprocBus.Bus.Receive | internal/bus/inproc/inproc.go:99-102 | Taking from the channel takes the oldest buffered message. |
| BusModel.DeliverToEach | internal/bus/inproc/inproc.go:70-72 | The loop over a list without duplicates offers the message to each listed subscription once and to no other. |
| BusModel.StepKeeps | internal/bus/inproc/inproc.go:64-143 | Every step keeps: a live list names each open subscription of its topic once and nothing closed, queues stay within their bound. |
| BusRuns.StateOfEvents | internal/bus/inproc/inproc.go:64-143 | In every run, which subscriptions exist, on which topic and whether they are closed is what the events say. |
| BusRuns.DeliveryIsFaithful | internal/bus/inproc/inproc.go:64-143 | In every run, received plus buffered is an in-order subsequence of what was published while the subscription was open, complete up to the first publish that found the buffer full, and all of it if none did. |
| Broker.Run | internal/conversation/broker.go:109-275 | On every path the peers that started are stopped; a run that gets past start and subscription ends as its rounds say; everybody asked is the speaker of the round and gets the envelope of the round: the opener's seed first, later the stripped reply of the round before. |
| Broker.RunLoop | internal/conversation/broker.go:162-274 | The loop's log is, turn by turn, that of the independent account of speakers and records, it stops in the first round that ends the run, and each speaker is asked with the envelope of its round. |
| Broker.FirstEnding | internal/conversation/broker.go:244-255 | The first drained message that ends the run decides how. |
| Broker.StartAllPeers | internal/conversation/broker.go:295-326 | Succeeds just when all can start; otherwise exactly the peers started so far are stopped. |
| Broker.StopAllPeers | internal/conversation/broker.go:330-343 | Stops every declared peer that has a transport, in declared order, and skips the others. |
| Broker.StopPeerIDs | internal/conversation/broker.go:345-354 | Stops those of the given ids that have a transport, in order, and skips the others. |
| BrokerLaws.RoutingChain | internal/conversation/broker.go:162-289 | In every round the speaker is declared and reached by id, whom the turn is addressed to speaks next, and nobody speaks twice in a row. |
| BrokerLaws.RunRoutesAmongDeclaredPeers | internal/conversation/broker.go:162-289 | The same read off the log of a run started with flags the command line accepts. |
| BrokerLaws.AddressedPeerSpeaksNext | internal/conversation/broker.go:206-208 | A trailer that names another declared peer makes that peer the next speaker. |
| BrokerLaws.RoundRobinSchedule | internal/conversation/policy/roundrobin.go:9-19 | Without trailers turn k is spoken by the peer k places behind the opener modulo their number. |
| BrokerLaws.EveryPeerOncePerRound | internal/conversation/broker.go:201-274 | Then any n consecutive turns of n peers give each peer exactly one. |
| BrokerLaws.LegacyAlternates | internal/conversation/broker.go:266-273 | A legacy run of two peers alternates strictly whatever the replies contain. |
| BrokerLaws.RunIsBounded | internal/conversation/broker.go:198-228 | At most MaxTurns turns (one if that is less), the first one the opener's; the cap's status exactly when the log is full, unless a control message claims that status. |
| MessageLaws.SentOnIsExact | internal/conversation/broker.go:205-208 | What is sent on of a response is, in a sentinel conversation, the response in front of the first line that is the token, without white space at its end, and no line of it is the token; in any other the response as it is. There is one such text. |
| MessageLaws.EnvelopesCarryResponses | internal/conversation/broker.go:144-274 | In every run the first envelope has the seed of the opener, and each later one what is sent on of the response logged last, under the name of the peer that gave it. |
| MessageLaws.AskedPeerAnswers | internal/conversation/broker.go:277-289 | The peer under whose name a turn is logged is the one that was asked, by id or by slot. |
| MessageLaws.TurnsAreRouted | internal/conversation/broker.go:182-222 | Every logged turn, in letters: it names whom the trailer of what is sent on names; that peer is next if it is another declared one, and else the next in order; the reason and the fallback flag say which; the first turn is the opener's, b only if it was asked for in a legacy run; and the next turn is that of the peer addressed. |
| MessageLaws.TrailerBeforeTokenDecides | internal/conversation/broker.go:205-222 | In a sentinel conversation a trailer in front of the token's line decides who speaks next. |
| MessageLaws.RunEndsForItsReason | internal/conversation/broker.go:162-255 | Every run ends in the first round that something ends, with its status: cancellation, a peer that does not answer, the cap, or the first deciding control message. |
| ProviderTransport.TurnsAreNumbered | internal/peer/provider/provider.go:64-92 | If the peers are the provider's transports, every run's turns are numbered 1 to n, and each text is the answer of its terminal, normalised and so free of control bytes. |
| ProviderTransport.CleanedIsVisible | internal/peer/provider/provider.go:81-87 | The response is what is visible of the pieces the terminal emitted. |
| ProviderTransport.FailureEndsTheRun | internal/peer/provider/provider.go:76-79 | If such a peer does not answer, a cancelled context interrupts the run, and exit, deadline, overflow and failed write are an error. |
| BrokerLaws.StartedPeersAreStopped | internal/conversation/broker.go:120-126 | On every exit path each peer is stopped exactly as often as it started, and no other peer is. |

## Left out

- Screen.Screen.MoveTheCursor: cursor arithmetic is over unbounded integers; the source's 64-bit wrap-around after astronomically many moves is not modelled. Parameters above the 64-bit maximum do fall back to the default, as in the source.
- ControlLaws.MovesCursor: like the other laws of the module, it speaks of numbers as they are printed, of missing and of malformed ones; numbers with a plus sign or leading zeros are left to `ParseOne`, and those with a minus sign to `Terminal.SignSafeIsExact`.
- TerminalLaws.LineFeedsScroll: at most 2^63 - 1 line feeds, because a larger count in SU is not a number for the source.
- TurnIsolation.OneTurn: the bytes of the turn fit the 64 MiB cap of the buffer, and the terminal echoes; turns without echo are in `SilentTurns` and `PeerRuns`.
- TurnIsolation.FirstEnvelopeRoundTrip: the briefing is any text without the marker whose first character no marker has; its wording, and the style texts, are not modelled.
- EnvelopeTurns.EveryAnswerIsItsReply: a first envelope's briefing is likewise any text whose first character no marker has; the style texts are not modelled.
- PersistentProcess.PersistentProcess.Pump: one event per call. Which of several ready events the source picks is left open, and nothing is claimed about output that is still queued when the end of the process is picked.
- SentinelProtocol.SentinelInTimeEndsTheRun: assumes, as does DrainDecides, that the drain timer does not win against a message that is already queued. A select of the source may pick either; SentinelEndingHasToken and TimeOutMakesTheRunLonger do not need the assumption.
- ProviderTransport.FailureEndsTheRun: delivery before start is not modelled; the broker starts every peer first.
- Broker.Run: peers, control messages and cancellation are an environment that is asked round by round. Store errors and other warnings, specs of peers and the note of the terminator are not modelled.
- Policy.MatchNextIsRegex: the regular expression is written out as text, id and blanks; general regular expressions are not modelled.
- PeerConfig.ParseNPeerSpecs: errors are values of their kind; their texts are not modelled.
- A text is a sequence of bytes, one character for each; the white space of Unicode is that of its UTF-8 encodings.
- Randomness of markers: freshness is a hypothesis, the shape of the token is kept.
- Wall-clock time: timeouts, the drain window and cancellation are choices of the environment.
- Pseudo-terminal, signals and process handling: only the bytes they deliver.
- JSON, file and Postgres stores, HTTP and SSE handlers, the file watcher; payload encoding counts as lossless.
- The routing fields of the persisted turn, which the source fills in after it has stored the turn; routing is stated about the returned log.
- Seeds of N-peer conversations: `seedFor` reads the two legacy seeds only.
- Turn policies other than the addressed one, and terminators other than the sentinel.
- The `Observe` ladders of the adapters, which guess the state of an agent from its screen text with regular expressions.
- The transcript tail buffer, the upgrade of old run files and the validation of run configurations.
- Locks: every method is one atomic step of the object it belongs to.
