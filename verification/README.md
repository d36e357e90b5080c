# Proofs about the compiler cache, the E2AP procedures and the VoiceGuard tools

This Dafny project models the parts of the repository with the most state and arithmetic and proves what
they are for. `dafny verify dfyconfig.toml` checks all of it. One file holds one module:

- `Md4`, `Hash`, `Unify`: the content hash of the compiler cache. The streaming MD4 with its 64-byte tail
  buffer gives the digest of RFC 1320 however the message is cut; the lexer that feeds it throws layout away
  and, for texts whose literals and `#` lines end, nothing else. `Md4Vectors` and `UnifyTokens` say in literals
  what one operation of MD4 computes and which bytes make one token.
- `Snprintf`, `C99Integers`, `C99Directives`, `Stats`: the bounded formatter as a state machine, its conversions
  and its reading of directives beside those of the C standard, and the counter file that is written through
  it, over its old contents and without truncation. `NumberText` gives the characters of digits, directives and
  hash names.
- `Cleanup`, `CacheUpdate`: eviction of the oldest files, with its order, its protected files and its counters,
  and the update of the counters that asks for it. `CacheFacts` says in figures and names which files are listed,
  which goes first, and what an update does.
- `E2ap`, `E2apNodes`: subscription, deletion and control between the near-RT RIC and the E2 agent (sections
  8.2.1, 8.2.2 and 8.2.4 of O-RAN E2AP v01.01) as one system of steps with messages in flight, and the two
  objects the C code updates.
- `Policies`, `VoiceGuard`: the protection policies, the quantile rule, and the control loop over whole runs;
  `CallDecision`: when a call gets its decision, which one, and what follows.
- `Collector`, `CollectorProcess`: the data collector that may be killed between any two actions and resumes
  from three files.
- `PythonText`, `SectionEdit`, `Secrets`: the config editor, from the characters up. `SectionLines` and
  `SecretLines` say in literals which lines hold a key and which are secret. `Options` holds the option type.

Nothing here runs the original programs. Code that changes things step by step is written as classes, loops
and arrays, each method proved against a specification function; the promises are proved about those
functions.

## What the proofs say about the code

Some promises hold under a condition only. Where that is so, a lemma gives the exact condition, another shows
an input at which the promise fails, and the code is modelled as it is.

- MD4: the length word is 32 bits of the bit count, so messages of 2^29 bytes and more leave the standard
  unless the high-order word happens to be zero (`Md4.PaddingMatchesRfcIff`).
- Directives: a period alone is taken for no precision, where C99 takes it for zero, and an `h` is read but
  does not narrow the argument (`C99Directives.IntDirectiveIff`, `C99Directives.StrDirectiveIff`); `hh`, `j`, `z`
  and `t` are not known (`C99Directives.OtherSizePrintsLetter`), and `%c` has no width
  (`C99Directives.CharDirectiveIff`).
- `%s`: the code raises the precision to the width, and takes negative widths and precisions as numbers
  (`Snprintf.StrMatchesC99Iff`).
- `fmtint`: at most nineteen digits are written, so longer magnitudes lose their leading digits
  (`Snprintf.DigitsReadBackIff`); a zero flag together with a precision changes the length
  (`Snprintf.LengthIff`); minus with zero flag, zero with precision zero, and `#` with a hexadecimal value
  also leave the standard (`C99Integers.IntMatchesC99Iff`).
- Eviction: a refused unlink keeps the recorded size right but makes the recorded number of files too small
  (`Cleanup.CountIsRightIff`, `CacheUpdate.RecordedTellsIff`); 0.8 of a limit of 1 is no limit at all
  (`CacheUpdate.QuietIff`).
- E2AP: request number 0 makes the agent remove a descriptor it never watched
  (`E2ap.AperiodicRemovalIff`); a link that is lost while a setup waits makes an assertion of the agent fail
  when a setup timer expires (`E2ap.OneSetupIff`); the 16-bit counter may come round, and numbers other than 0
  stay distinct as long as fewer than 65536 requests were made since the oldest number still in use
  (`E2ap.FreshAcrossWraps`).
- VoiceGuard: a failed write leaves the control file behind the policy until the next change
  (`VoiceGuard.InStepIff`), and a failed restore write does not delay the next restore step
  (`VoiceGuard.RestoreSpacingIff`).
- Collector: a restart without `--resume` can leave results whose rows are gone
  (`Collector.FreshRestartIff`); levels whose percents are truncated to one number,
  as 0.28 and 0.29 are in binary arithmetic, give one id, which no longer tells their scenarios apart
  (`CollectorProcess.GridIdsDistinctIff`).
- Config editor: `set_section_values` is idempotent for identifier keys and one-line values only
  (`SectionEdit.IdempotentIff`), and edits of two sections do not commute when a key or value holds another
  line break than a newline (`SectionEdit.EditsCommuteIff`) or brings in a header of the other section
  (`SectionEdit.InjectedHeaderIff`); merging is the identity unless a key occurs twice with different text
  (`Secrets.RoundTripIff`).

Where documentation and code differ, the code is modelled: the first lines of `voiceguard_rf.py` speak of
three consecutive samples, while the code takes the number from its configuration and counts only samples
that could be read.

## Model

| member | source | states |
|---|---|---|
| `Md4.LshiftIsRotation` | src/swig/CCache/mdfour.c:34-34 | `lshift`, two shifts joined by or, is a 32-bit rotation for each of the shift amounts that the three rounds use (3, 5, 7, 9, 11, 13, 15, 19) |
| `Md4.WordBytesRoundTrip` | src/swig/CCache/mdfour.c:86-101 | the little-endian byte order of `copy64` and `copy4`: a word split into bytes and put together again is itself |
| `Md4.BlocksConcat` | src/swig/CCache/mdfour.c:167-173 | the fold of the compression function over whole blocks splits at any block boundary |
| `Md4.AbsorbCompose` | src/swig/CCache/mdfour.c:141-179 | absorbing x and then y leaves the state of absorbing x followed by y: registers, 32-bit byte counter and tail |
| `Md4.CutsDoNotMatter` | src/swig/CCache/mdfour.c:141-179 | every way of cutting a message into updates, empty ones included, leaves the same state as one update |
| `Md4.TotalIsLength` | src/swig/CCache/mdfour.c:114-138 | after the NULL update the counter is the message length modulo 2^32 |
| `Md4.FinishIsOneShot` | src/swig/CCache/mdfour.c:114-138 | the NULL update completes the fold over the whole message and the padding the code makes, in one or two last blocks |
| `Md4.PaddingMatchesRfcIff` | src/swig/CCache/mdfour.c:114-138 | the code's padding is that of RFC 1320, section 3.1 and 3.2, if and only if the high-order word of the bit length is zero |
| `Md4.PaddingFailsAt512MiB` | src/swig/CCache/mdfour.c:122-133 | a message of exactly 2^29 bytes is padded differently from the standard |
| `Md4.StreamIsRfc1320` | src/swig/CCache/mdfour.c:103-200 | main result: any sequence of updates closed by the NULL update gives the digest of RFC 1320, for every message whose bit length has a zero high-order word, in particular below 2^29 bytes |
| `Md4Vectors.FSelects` | src/swig/CCache/mdfour.c:31-31 | bit by bit F takes its second argument where the first is 1 and its third where it is 0 |
| `Md4Vectors.GIsMajority` | src/swig/CCache/mdfour.c:32-32 | a bit of G is set exactly where it is set in two of the three arguments |
| `Md4Vectors.HIsParity` | src/swig/CCache/mdfour.c:33-33 | a bit of H is set exactly where it is set in an odd number of the arguments |
| `Md4Vectors.Step1By3` | src/swig/CCache/mdfour.c:36-36 | the first operation of round 1: the sum of register, F and word, turned left by 3 |
| `Md4Vectors.Step1By7` | src/swig/CCache/mdfour.c:36-36 | the second, by 7 |
| `Md4Vectors.Step1By11` | src/swig/CCache/mdfour.c:36-36 | the third, by 11 |
| `Md4Vectors.Step1By19` | src/swig/CCache/mdfour.c:36-36 | the fourth, by 19 |
| `Md4Vectors.Step2By3` | src/swig/CCache/mdfour.c:37-37 | an operation of round 2: the sum of register, G, word and 1518500249, turned left by 3 |
| `Md4Vectors.Step2By5` | src/swig/CCache/mdfour.c:37-37 | the second of round 2, by 5 |
| `Md4Vectors.Step2By9` | src/swig/CCache/mdfour.c:37-37 | the third, by 9 |
| `Md4Vectors.Step2By13` | src/swig/CCache/mdfour.c:37-37 | the fourth, by 13 |
| `Md4Vectors.Step3By3` | src/swig/CCache/mdfour.c:38-38 | an operation of round 3: the sum of register, H, word and 1859775393, turned left by 3 |
| `Md4Vectors.Step3By9` | src/swig/CCache/mdfour.c:38-38 | the second of round 3, by 9 |
| `Md4Vectors.Step3By11` | src/swig/CCache/mdfour.c:38-38 | the third, by 11 |
| `Md4Vectors.Step3By15` | src/swig/CCache/mdfour.c:38-38 | the fourth, by 15 |
| `Md4Vectors.RootOfTwo` | src/swig/CCache/mdfour.c:37-37 | the constant of round 2 is the whole part of 2^30 times the square root of 2, told by squares |
| `Md4Vectors.RootOfThree` | src/swig/CCache/mdfour.c:38-38 | the constant of round 3 is the whole part of 2^30 times the square root of 3 |
| `Md4Vectors.DigestOfAbc` | src/swig/CCache/mdfour.c:41-200 | the digest of the three bytes abc is that of section A.5 of RFC 1320, through all 48 operations |
| `Md4.OrIsSum` | src/swig/CCache/mdfour.c:86-93 | the sum of shifted bytes that builds a word is their bitwise or |
| `Md4.Mdfour.constructor` | src/swig/CCache/mdfour.c:103-112 | a new state is the initial one of RFC 1320, section 3.3 |
| `Md4.Mdfour.Begin` | src/swig/CCache/mdfour.c:103-112 | `mdfour_begin` brings any state back to the initial one |
| `Md4.Mdfour.Sixteen1` | src/swig/CCache/mdfour.c:49-56 | the sixteen straight-line operations of round 1 are round 1 of RFC 1320, section 3.4 |
| `Md4.Mdfour.Sixteen2` | src/swig/CCache/mdfour.c:59-66 | the same for round 2 |
| `Md4.Mdfour.Sixteen3` | src/swig/CCache/mdfour.c:69-76 | the same for round 3 |
| `Md4.Mdfour.Mdfour64` | src/swig/CCache/mdfour.c:41-84 | one call folds the registers through the three rounds and adds the old values back |
| `Md4.Mdfour.Copy64` | src/swig/CCache/mdfour.c:86-93 | 64 bytes become sixteen little-endian words |
| `Md4.Mdfour.Copy4` | src/swig/CCache/mdfour.c:95-101 | a word is written as four bytes and nothing else in the buffer changes |
| `Md4.Mdfour.Tail` | src/swig/CCache/mdfour.c:114-138 | `mdfour_tail` turns the abstract state into the finished one, for tails below and above 56 bytes |
| `Md4.Mdfour.TopUp` | src/swig/CCache/mdfour.c:152-165 | the start of an update fills the 64-byte tail buffer and absorbs it exactly when it is full |
| `Md4.Mdfour.Update` | src/swig/CCache/mdfour.c:141-179 | `mdfour_update` absorbs its bytes, or finishes for a NULL input; the tail buffer stays below 64 bytes |
| `Md4.Mdfour.Result` | src/swig/CCache/mdfour.c:182-190 | the sixteen output bytes are the four registers, each with its low byte first |
| `Hash.HashFile` | src/swig/CCache/hash.c:47-62 | the read loop absorbs exactly the bytes up to the first read that is not positive, however the reads are cut |
| `Hash.HashResult` | src/swig/CCache/hash.c:65-80 | the result is the digest of the finished state in hexadecimal, a dash and the byte counter, and fits the 53 characters of its buffer |
| `Hash.FileDigest` | src/swig/CCache/hash.c:31-80 | a file that is read to its end gives the text of its RFC 1320 digest and of its length modulo 2^32, whatever the lengths of the reads |
| `Hash.ResultTellsIff` | src/swig/CCache/hash.c:65-80 | two results are one text if and only if digest and counter are the same |
| `NumberText.HashDigits` | src/swig/CCache/hash.c:74-76 | each byte of the digest gives the two characters of 0123456789abcdef for its quotient and its remainder by 16 |
| `NumberText.HashName` | src/swig/CCache/hash.c:77-77 | behind the 32 characters of the digest stand a dash and the counter in decimal digits |
| `Hash.OneShot` | src/swig/CCache/mdfour.c:193-200 | `mdfour` gives the RFC 1320 digest of its buffer |
| `Unify.EmitSplits` | src/swig/CCache/unify.c:127-232 | the stream of a text splits at every place where a pass of the outer loop starts |
| `Unify.PassLocal` | src/swig/CCache/unify.c:127-232 | a pass that ends by an offset where white space follows depends only on the bytes before it |
| `Unify.EmitShift` | src/swig/CCache/unify.c:127-232 | what is emitted from an offset on does not depend on what stands before it |
| `Unify.EditKeepsStream` | src/swig/CCache/unify.c:127-232 | replacing, adding or removing a run of white space at the end of a token, or adding a `# <digit>` line after white space, keeps the emitted stream |
| `Unify.LayoutDoesNotMatter` | src/swig/CCache/unify.c:119-233 | main result: texts connected by any number of such edits, made or undone, have the same stream |
| `Unify.StreamIsNormalForm` | src/swig/CCache/unify.c:119-233 | for a text whose literals close, the stream read back as a text emits itself: unifying twice is unifying once |
| `Unify.ToStream` | src/swig/CCache/unify.c:119-233 | a text whose literals close and whose # lines end in a newline is led to its own stream by edits of the layout |
| `Unify.SameStreamIff` | src/swig/CCache/unify.c:119-233 | main result: two such texts have the same stream if and only if edits of the layout lead from one to the other: layout is lost, and nothing else |
| `Unify.FeedText` | src/swig/CCache/unify.c:97-116 | a text without zero bytes is fed as one absorption |
| `Unify.Unifier.constructor` | src/swig/CCache/unify.c:97-101 | the 64-byte buffer of `pushchar` is empty at first |
| `Unify.Unifier.Flush` | src/swig/CCache/unify.c:97-116 | the buffer is handed to the hash and is empty afterwards |
| `Unify.Unifier.Pushchar` | src/swig/CCache/unify.c:97-116 | each byte reaches the hash in order wherever the buffer is flushed; the zero byte flushes and finishes |
| `Unify.Unifier.PushRun` | src/swig/CCache/unify.c:145-165 | the loops over identifiers and numbers push exactly the run of their class |
| `Unify.Unifier.PushNumber` | src/swig/CCache/unify.c:155-179 | a number with its hexadecimal, exponent and suffix parts is pushed up to where the code stops |
| `Unify.Unifier.PushEscapes` | src/swig/CCache/unify.c:195-200 | the inner loop over a literal takes a backslash and the byte after it in pairs |
| `Unify.Unifier.PushLiteral` | src/swig/CCache/unify.c:191-205 | a literal is pushed up to its closing quote, and for an unclosed one including the byte after the text |
| `Unify.Unifier.PushToken` | src/swig/CCache/unify.c:208-226 | the first token of the table that stands at the offset is pushed |
| `Unify.Unifier.PassLine` | src/swig/CCache/unify.c:128-143 | a line that starts with # is skipped when it is a marker, else pushed, with a newline after it |
| `Unify.Unifier.PassToken` | src/swig/CCache/unify.c:145-230 | every pass over a token pushes the token and a newline and leaves the offset after it |
| `Unify.Unifier.Pass` | src/swig/CCache/unify.c:127-231 | each outer pass advances the offset and pushes what the stream says |
| `Unify.Unifier.Unify` | src/swig/CCache/unify.c:119-233 | `unify` hands the hash exactly the stream of the text and the closing zero; the buffer is empty when it returns |
| `Unify.SameLayoutSameHash` | src/swig/CCache/unify.c:97-233 | texts that differ in layout only take any MD4 state to the same MD4 state |
| `Unify.StreamDigest` | src/swig/CCache/unify.c:119-233 | for a zero-free stream below 2^29 bytes the hash after `unify` is the RFC 1320 digest of the stream |
| `UnifyTokens.WordIsMaximal` | src/swig/CCache/unify.c:145-153 | from a letter or an underscore on, the pass takes every letter, digit and underscore up to the first other byte, and pushes them and a newline |
| `UnifyTokens.NumberIsMaximal` | src/swig/CCache/unify.c:155-179 | from a digit on, the pass takes digits and periods, an x or X with hexadecimal digits, an e or E with digits and signs, and the letters l, L, f, F, u and U, each part as far as it goes |
| `UnifyTokens.WhiteIsMaximal` | src/swig/CCache/unify.c:182-187 | the pass over the bytes 9 to 13 and 32 goes to the first other byte and pushes nothing |
| `UnifyTokens.HashLine` | src/swig/CCache/unify.c:128-143 | a # line goes to its newline: with a blank and a digit behind the # it pushes nothing, else itself |
| `UnifyTokens.LiteralCloses` | src/swig/CCache/unify.c:189-205 | a literal ends at the first quote of its kind with an even number of backslashes in front of it |
| `UnifyTokens.OperatorIsLongest` | src/swig/CCache/unify.c:35-42 | any other byte starts one of three operators of three bytes, else one of 22 of two bytes, else it stands alone; `:>` is never found because `:` stands before it in the table |
| `UnifyTokens.QuotelessIsClosed` | src/swig/CCache/unify.c:127-231 | the main results on closed and on complete texts hold for every text without quotes, and for every one without quotes and # lines |
| `UnifyTokens.SpaceSplitsWord` | src/swig/CCache/unify.c:145-187 | a blank put inside a word changes the stream |
| `UnifyTokens.NameWithDigit` | src/swig/CCache/unify.c:145-153 | the text x1 is one token |
| `Snprintf.StrMatchesC99Iff` | src/swig/CCache/snprintf.c:337-345 | for a width and precision as they reach the conversion, `%s` is what section 7.19.6.1 of ISO/IEC 9899:1999 says for all values of a length if and only if a condition on length, width and precision holds |
| `Snprintf.LowDigitsValue` | src/swig/CCache/snprintf.c:470-475 | the low k digits of a magnitude stand for its remainder modulo base^k |
| `Snprintf.LengthPower` | src/swig/CCache/snprintf.c:470-475 | a magnitude is below base^k if and only if it has at most k digits |
| `Snprintf.DigitsReadBackIff` | src/swig/CCache/snprintf.c:470-477 | the digits of `fmtint` read back to the magnitude if and only if it is below base^19; otherwise to its remainder |
| `Snprintf.LeadingZeros` | src/swig/CCache/snprintf.c:479-511 | the zeros of precision and zero flag do not change the value |
| `Snprintf.LengthIff` | src/swig/CCache/snprintf.c:479-522 | the total length is max(min, sign + max(precision, digits)) if and only if a zero flag does not meet a precision above the digit count and a width above both |
| `C99Integers.IntMatchesC99Iff` | src/swig/CCache/snprintf.c:440-522 | for a value, width and precision as they reach it, `fmtint` gives the text that section 7.19.6.1 of ISO/IEC 9899:1999 asks for if and only if a condition on value, base, width, precision and flags holds |
| `C99Integers.TwoValuesIff` | src/swig/CCache/snprintf.c:440-522 | the text `fmtint` gives one value is the C99 text of another if and only if both are one number and the conversion agrees |
| `C99Integers.LayInjective` | src/swig/CCache/snprintf.c:493-522 | two layouts of spaces, sign, zeros and digits that give one text have the same spaces on each side and the same count of digits, so each branch of the condition is needed |
| `C99Integers.PrefixDiffers` | src/swig/CCache/snprintf.c:440-522 | where C99 asks for 0x no text of `fmtint` agrees, of any value: no x is written |
| `C99Integers.NoDigitsDiffer` | src/swig/CCache/snprintf.c:470-475 | nor where C99 asks for no digit: the loop always writes one |
| `C99Integers.MinusAndZeroDiffer` | src/swig/CCache/snprintf.c:479-491 | an input that fails: minus and zero flag together |
| `C99Integers.ZeroWithoutPrecisionDiffers` | src/swig/CCache/snprintf.c:470-475 | an input that fails: zero with precision zero |
| `C99Integers.ZeroFlagWithPrecisionIsShort` | src/swig/CCache/snprintf.c:479-491 | an input at which the length is below the width: zero flag with a precision |
| `C99Integers.TwentyDigitsLoseOne` | src/swig/CCache/snprintf.c:470-477 | %lu of 10^19 writes nineteen zeros |
| `C99Directives.SameDirective` | src/swig/CCache/snprintf.c:171-254 | of every directive of C99 with the sizes none, h, l or ll `dopr` reads flags, width, precision, size and arguments as C99 does, but takes a period alone for no precision |
| `C99Directives.IntDirectiveIff` | src/swig/CCache/snprintf.c:159-330 | main result: from any d, i, o, u, x or X directive of such a size on, `dopr` writes the C99 text and then the rest of the format if and only if the value fits an h and the condition of `fmtint` holds at the precision of C99 |
| `C99Directives.StrDirectiveIff` | src/swig/CCache/snprintf.c:337-345 | main result: an `%s` directive is what C99 says for all values of a length if and only if its condition on width and precision holds, or for a period alone, if the value is empty and the width not negative |
| `C99Directives.CharDirectiveIff` | src/swig/CCache/snprintf.c:334-336 | a `%c` directive agrees if and only if its width asks for no padding |
| `C99Directives.OtherSizePrintsLetter` | src/swig/CCache/snprintf.c:232-254 | for hh, j, z and t the conversion letter is written in place of a number, and the argument is left for the next directive |
| `C99Directives.PeriodAloneShowsAll` | src/swig/CCache/snprintf.c:210-231 | an input that fails: `%.s` of abc |
| `C99Directives.PeriodAlonePadsWithZeros` | src/swig/CCache/snprintf.c:210-231 | an input that fails: `%05.d` of 7 |
| `C99Directives.ShortIsNotNarrowed` | src/swig/CCache/snprintf.c:258-268 | an input that fails: `%hd` of 70000 |
| `NumberText.DigitIs` | src/swig/CCache/snprintf.c:471-473 | a digit is the character of 0123456789abcdef or 0123456789ABCDEF at its value |
| `NumberText.LowDigitAt` | src/swig/CCache/snprintf.c:470-475 | the digit at each place is the character of the table for the quotient by a power of the base |
| `NumberText.HexDirective` | src/swig/CCache/snprintf.c:293-308 | the text of `%x`, whatever its flags, width and precision, is blanks and characters of 0123456789abcdef, that of `%X` of 0123456789ABCDEF |
| `NumberText.IntegerWidths` | src/swig/CCache/snprintf.c:258-308 | what an int, an unsigned int and a long read: the only value of their range that is the argument modulo 2^32 or 2^64 |
| `NumberText.SizesKeep` | src/swig/CCache/snprintf.c:258-308 | which of these an argument is read as: a long for l and ll, an int for h and no size |
| `NumberText.FloatArgument` | src/swig/CCache/snprintf.c:309-316 | `%f` hands its argument, width, precision and flags to `fmtfp` |
| `NumberText.PlainNumber` | src/swig/CCache/snprintf.c:453-522 | a number without width and precision: a minus, a plus or a blank as value and flags ask for it, and the digits |
| `NumberText.DirectiveReads` | src/swig/CCache/snprintf.c:171-231 | a directive of any flags, a width and a precision in decimal digits is read as exactly those |
| `NumberText.PercentIsPercent` | src/swig/CCache/snprintf.c:369-371 | two percent signs write one and take no argument |
| `NumberText.TakesItsArgument` | src/swig/CCache/snprintf.c:255-358 | each of d, i, o, u, x, X, p, c, s, f, e, E, g, G and n takes one argument, so a `%c` behind it finds the next; e, E, g, G and n write nothing |
| `NumberText.TakesNoArgument` | src/swig/CCache/snprintf.c:369-378 | `%%` and an unknown letter take none, and `%w` takes away the character behind it |
| `NumberText.StringArgument` | src/swig/CCache/snprintf.c:337-339 | a null pointer reads as (NULL), other text up to its first NUL |
| `Snprintf.Sink.constructor` | src/swig/CCache/snprintf.c:141-157 | nothing is written yet |
| `Snprintf.Sink.Outch` | src/swig/CCache/snprintf.c:747-753 | a character is stored when it fits and counted in any case; nothing outside the buffer or after its place changes |
| `Snprintf.Sink.Terminate` | src/swig/CCache/snprintf.c:392-399 | the buffer holds the first maxlen - 1 characters of the whole output, or all of it, and a NUL; the length does not depend on maxlen |
| `Snprintf.Sink.FmtStr` | src/swig/CCache/snprintf.c:402-436 | `fmtstr` writes the padded and cut text, padding counted against the precision |
| `Snprintf.Sink.ConvertDigits` | src/swig/CCache/snprintf.c:470-477 | the do-while loop leaves the digits in reverse, at most nineteen of them |
| `Snprintf.Sink.FmtInt` | src/swig/CCache/snprintf.c:440-522 | `fmtint` writes spaces, sign, zeros and digits as its specification says |
| `Snprintf.ReadOneFlag` | src/swig/CCache/snprintf.c:171-197 | one turn of the state machine in the flags state is one step of reading the directive |
| `Snprintf.ReadOneWidthDigit` | src/swig/CCache/snprintf.c:198-209 | the same for a digit of the width |
| `Snprintf.ReadOnePrecisionDigit` | src/swig/CCache/snprintf.c:218-231 | the same for a digit of the precision |
| `Snprintf.Conversion` | src/swig/CCache/snprintf.c:255-384 | the conversion state writes what the directive denotes and takes an argument exactly when it should |
| `Snprintf.ReadDirective` | src/swig/CCache/snprintf.c:171-254 | the states between % and the conversion read flags, width, precision and modifier without output |
| `Snprintf.Advance` | src/swig/CCache/snprintf.c:159-391 | every turn keeps "written so far followed by what the state still denotes" and lowers (characters left, state rank) |
| `Snprintf.Dopr` | src/swig/CCache/snprintf.c:141-400 | main result: for every format and argument list the buffer holds the bounded form of the unbounded output and the returned length is that of the unbounded output; the loop halts |
| `Snprintf.BoundedPrefix` | src/swig/CCache/snprintf.c:392-399 | the buffer holds the whole output, or the first maxlen - 1 characters of one that does not fit, then a NUL; behind it, and for maxlen 0 everywhere, it is as it was |
| `Snprintf.Vasprintf` | src/swig/CCache/snprintf.c:787-799 | the second pass of `vasprintf` fits the buffer the first pass sized, exactly |
| `Stats.RenderCounter` | src/swig/CCache/stats.c:87-90 | "%u " of a counter, taken through the state machine of `dopr`, is its decimal digits and a space |
| `Stats.StrtolReadsCounter` | src/swig/CCache/stats.c:73-77 | `strtol` reads a printed counter back, after at most one space, and stops at the space after it |
| `CacheFacts.StrtolIs` | src/swig/CCache/stats.c:73-77 | white space, a sign and digits are read as their value, cut to the range of a long, up to the end of the digits |
| `CacheFacts.StrtolFindsNone` | src/swig/CCache/stats.c:73-77 | without a digit behind white space and sign nothing is read |
| `Stats.ParseAdds` | src/swig/CCache/stats.c:67-78 | `parse_stats` on a written text adds every counter once, 32 bits wide |
| `Stats.ParseAfterWrite` | src/swig/CCache/stats.c:67-96 | main result: for any counters and any bytes that a longer earlier file left behind, zeroed counters read back what was written |
| `Stats.StatsFile.ReadFd` | src/swig/CCache/stats.c:106-117 | for any counters and any content: the size limit grows by its default for an empty file, else the numbers of the first 1023 bytes are added; a file that holds counters adds exactly those |
| `Stats.HeldIsAdded` | src/swig/CCache/stats.c:98-117 | reading a file that holds counters, empty or with anything behind their text, adds each of them once |
| `Stats.StatsFile.WriteStats` | src/swig/CCache/stats.c:81-96 | the text goes over the start of the file, which is not truncated; the line always fits the buffer |
| `Stats.StatsFile.Update` | src/swig/CCache/stats.c:146-170 | an update of an open file leaves one that holds the updated counters, and reports exactly when a limit is exceeded |
| `CacheFacts.MissOutcome` | src/swig/CCache/stats.c:146-170 | within 32 bits a miss adds 1 to counter 4, its files to counter 11 and its KiB to counter 12, and asks for a cleanup exactly when counter 13 or 14 is set and then exceeded |
| `CacheFacts.OtherOutcome` | src/swig/CCache/stats.c:149-156 | any other event adds 1 to its own counter and nothing else |
| `CacheFacts.OnlyTheStartIsRead` | src/swig/CCache/stats.c:106-117 | at most 1023 characters of the file are read |
| `CacheFacts.RecordedIs` | src/swig/CCache/stats.c:343-366 | within 32 bits what a cleanup counted stands in counters 11 and 12, and the others stay |
| `CacheFacts.EmptyFileHolds` | src/swig/CCache/stats.c:99-117 | an empty file stands for zeros and a size limit of 62500 KiB |
| `Stats.StatsFile.SetSizes` | src/swig/CCache/stats.c:343-366 | the two counters get what a cleanup has counted and the others stay |
| `Stats.UpdatesAccumulate` | src/swig/CCache/stats.c:149-156 | after any sequence of updates each counter has grown by exactly what they contribute, modulo 2^32: no update is lost |
| `Stats.OrderDoesNotMatter` | src/swig/CCache/stats.c:141-160 | the order in which processes make their updates does not change the counters |
| `Cleanup.FilesCompareOrder` | src/swig/CCache/cleanup.c:37-46 | `files_compare` is a total order: antisymmetric, transitive, zero only for one name and one time |
| `CacheFacts.GoesFirst` | src/swig/CCache/cleanup.c:37-46 | an older file comes before a newer one, and of files of one time the one whose name differs by a later character, or goes on |
| `Cleanup.SortedIsUnique` | src/swig/CCache/cleanup.c:83-87 | a listing has one sorted arrangement, so eviction does not depend on how `qsort` works |
| `Cleanup.ProtectedIff` | src/swig/CCache/cleanup.c:88-104 | with minfiles > 0 a file is protected if and only if it is not older than the minfiles-th newest, or there are no more files than that |
| `Cleanup.FirstStopIsUnique` | src/swig/CCache/cleanup.c:107-119 | the place where the loop leaves is determined by the listing and the limits |
| `Cleanup.EndsWithinLimits` | src/swig/CCache/cleanup.c:107-121 | when every unlink succeeds or finds the file gone: what is left is a suffix, and both limits hold for it, or only protected files are left, or none |
| `Cleanup.NewestAreKept` | src/swig/CCache/cleanup.c:88-112 | no file among the minfiles newest, or tied with one of them, is tried; and each file is tried while a limit is exceeded |
| `Cleanup.CountIsRightIff` | src/swig/CCache/cleanup.c:107-121 | told before the call: the recorded number of files is the number left if and only if no file can be refused that would be evicted if none were |
| `Cleanup.CountIsTried` | src/swig/CCache/cleanup.c:114-121 | the recorded number leaves out every file that was tried, the refused ones too |
| `Cleanup.RefusedFileIsNotCounted` | src/swig/CCache/cleanup.c:114-121 | an input that fails: one file over the limit that cannot be removed, recorded as no file |
| `Cleanup.LooserLimitsKeepMore` | src/swig/CCache/cleanup.c:107-119 | looser limits never evict more files |
| `Cleanup.Cleaner.constructor` | src/swig/CCache/cleanup.c:25-34 | an empty listing |
| `Cleanup.Cleaner.TraverseFn` | src/swig/CCache/cleanup.c:49-74 | a regular file that is not a counter file is listed with its size in KiB; the total grows by it |
| `CacheFacts.ListedIff` | src/swig/CCache/cleanup.c:49-74 | a file is listed if and only if it is regular and its name is not stats, in any directory, with its time and its size in KiB |
| `CacheFacts.StatsIsNeverTried` | src/swig/CCache/cleanup.c:49-74 | the file stats of a directory is never evicted, whatever the limits |
| `Cleanup.Cleaner.Traverse` | src/swig/CCache/cleanup.c:132-136 | the listing of a directory is its cached files, in the order found |
| `Cleanup.Cleaner.Sort` | src/swig/CCache/cleanup.c:83-87 | the array is sorted in place and holds the same files |
| `Cleanup.Cleaner.AdjustedMinfiles` | src/swig/CCache/cleanup.c:94-104 | the loop over ties counts exactly the protected files |
| `Cleanup.Cleaner.Turn` | src/swig/CCache/cleanup.c:108-118 | one turn leaves the loop, or removes the file from disk and total, or keeps a file whose unlink is refused in both |
| `Cleanup.Cleaner.Evict` | src/swig/CCache/cleanup.c:106-121 | the disk loses exactly the files before the first stop that could be removed; the total is the sum of the sizes of all others |
| `Cleanup.Cleaner.SortAndClean` | src/swig/CCache/cleanup.c:78-122 | both together, from any order of the listing |
| `Cleanup.Cleaner.CleanupDir` | src/swig/CCache/cleanup.c:125-155 | from the entries of a directory to the files left, in one contract; the listing is empty again for the next directory |
| `CacheUpdate.UpdateSize` | src/swig/CCache/stats.c:120-178 | the whole of `stats_update_size`: nothing when it is disabled or the file cannot be opened or locked; else the update, and exactly when a limit is exceeded the eviction from the directory and the recording of what it counted |
| `CacheUpdate.RecordedTellsIff` | src/swig/CCache/cleanup.c:125-140 | main result: after a cleanup the counters are the number and size of the files left, however wrong they were before, if and only if no file can be refused that would be evicted if none were |
| `CacheUpdate.QuietIff` | src/swig/CCache/cleanup.c:129-130 | a cleanup without refusals that spares nothing leaves both limits kept for every listing if and only if no limit is 1, whose 0.8 is truncated to no limit; the one exception is a size limit of 1 beside a file limit of 2, which leaves no file |
| `CacheFacts.AimsAtFourFifths` | src/swig/CCache/cleanup.c:129-130 | the thresholds are four fifths of the limits of size and number, rounded down |
| `E2ap.ArmKeeps` | src/flexric/src/ric/near_ric.c:787-801 | a request adds one watched timer and one pending entry; no two entries wait for one event afterwards if and only if that was so and the event was not pending |
| `E2ap.StopFindsTimer` | src/flexric/src/ric/msg_handler_ric.c:52-69 | `stop_pending_event` finds one timer, watched, and leaves every other entry |
| `E2ap.SubscribeKeeps` | src/flexric/src/agent/msg_handler_agent.c:143-195 | a subscription with a new id adds one indication event under its timer, or, when that key is free, under minus the request number; the watched set stays exact |
| `E2ap.DeleteKeeps` | src/flexric/src/agent/msg_handler_agent.c:36-69 | a deletion removes exactly the event of the id and its timer, an unknown id changes nothing; only watched descriptors are removed if and only if the event is not stored under 0 |
| `E2ap.AperiodicRemovalIff` | src/flexric/src/agent/msg_handler_agent.c:62-66 | deleting an aperiodic subscription removes only watched descriptors if and only if its request number is not zero |
| `E2ap.NumberZeroRemovesUnwatched` | src/flexric/src/ric/near_ric.c:774-785 | an input that fails: a counter at 65536 gives number 0, and a deletion with it removes descriptor 0, which the agent does not watch |
| `E2ap.WatchedIs` | src/flexric/src/agent/e2_agent.c:259-296 | the watched descriptors are the socket, the pipe, the periodic keys and the setup timer, all disjoint |
| `E2ap.SetupKeeps` | src/flexric/src/agent/not_handler_agent.c:13-28 | a setup timer is armed after link loss and one is stopped by a setup response without disturbing the rest |
| `E2ap.InFlightIsPending` | src/flexric/src/ric/near_ric.c:774-873 | a message is in flight if and only if it is pending |
| `E2ap.SubscribeStep` | src/flexric/src/ric/near_ric.c:774-804 | a subscription request keeps the invariant |
| `E2ap.DeleteStep` | src/flexric/src/ric/near_ric.c:807-839 | a delete request keeps the invariant, also when one for the same id is pending and nothing is sent |
| `E2ap.ControlStep` | src/flexric/src/ric/near_ric.c:842-873 | a control request keeps the invariant |
| `E2ap.AgentStep` | src/flexric/src/agent/msg_handler_agent.c:143-282 | whatever request the agent handles next, the invariant is kept |
| `E2ap.RicStep` | src/flexric/src/ric/msg_handler_ric.c:52-148 | whichever response the RIC handles next, the invariant is kept |
| `E2ap.SetupStep` | src/flexric/src/agent/msg_handler_agent.c:295-327 | the setup response keeps the invariant |
| `E2ap.LinkStep` | src/flexric/src/agent/not_handler_agent.c:13-28 | a lost link, at any time, arms a setup timer and keeps the invariant |
| `E2ap.StepKeepsInv` | src/flexric/src/agent/e2_agent.c:299-415 | every step of the system, sending, handling or a lost link, keeps the invariant of both nodes and the channels |
| `E2ap.RunKeepsInv` | src/flexric/src/agent/e2_agent.c:299-415 | the invariant holds at every state of every run |
| `E2ap.WatchedAlongRun` | src/flexric/src/agent/e2_agent.c:166-296 | main result: in every run, links lost at any time included, the agent watches exactly socket, pipe, the timers of its periodic subscriptions and its setup timers, and every descriptor that epoll can return is exactly one of these kinds |
| `E2ap.SetupsAlongRun` | src/flexric/src/agent/not_handler_agent.c:13-28 | in every run the setup timers that wait are the first one and one for each lost link, less one for each setup response |
| `E2ap.OneSetupIff` | src/flexric/src/agent/e2_agent.c:220-237 | main result: the assertion of `pend_event`, that exactly one setup is pending, holds for every setup timer that epoll can return if and only if no more links were lost than setup responses came |
| `E2ap.EarlyLossFailsAssertion` | src/flexric/src/agent/not_handler_agent.c:13-28 | an input that fails: a link lost before the first setup response leaves two setup timers |
| `E2ap.ResponseFindsTimer` | src/flexric/src/ric/msg_handler_ric.c:52-69 | main result: in every run the messages in flight match the pending map one for one, every armed timer has exactly one entry, and a response removes exactly its own timer |
| `E2ap.Quiescent` | src/flexric/src/ric/near_ric.c:774-873 | with nothing in flight, nothing is pending and the agent holds exactly the ids subscribed and not deleted |
| `E2ap.DeletedIsGone` | src/flexric/src/agent/msg_handler_agent.c:200-222 | when the response to a deletion arrives, the agent holds no event of the id and no subscription to it is under way |
| `E2ap.DeletedNeverReturns` | src/flexric/src/agent/msg_handler_agent.c:36-69 | main result: once the RIC has handled the delete response the agent holds no event of the id, and gains none until the 16-bit counter issues that id again |
| `E2ap.DeletedStaysDeleted` | src/flexric/src/agent/msg_handler_agent.c:36-69 | in a run within 16 bits whose deletes name issued numbers, a deleted id never returns, with no further assumption |
| `E2ap.StepKeepsIssued` | src/flexric/src/ric/near_ric.c:774-873 | every step keeps that condition |
| `E2ap.RecentIsFreshIff` | src/flexric/src/ric/near_ric.c:774-785 | however often the counter has come round: while fewer than 65536 requests were made since the oldest live number, the next number is fresh if and only if it is not 0 |
| `E2ap.StepKeepsRecent` | src/flexric/src/ric/near_ric.c:774-873 | every step keeps the premise that live numbers were given since a value of the counter |
| `E2ap.FreshAcrossWraps` | src/flexric/src/ric/near_ric.c:774-785 | main result: so along any run, across any number of wraps, each request number is fresh exactly when it is not 0, as long as fewer than 65536 were given since the oldest live one |
| `E2apNodes.NearRic.constructor` | src/flexric/src/ric/near_ric.c:182-226 | the counter starts at 1021, nothing is pending and the socket is watched |
| `E2apNodes.NearRic.ArmTimer` | src/flexric/src/ric/near_ric.c:787-801 | timer and map entry are added together, also for an event that is pending already |
| `E2apNodes.NearRic.Request` | src/flexric/src/ric/near_ric.c:774-873 | the request carries the counter modulo 2^16, and the counter goes up |
| `E2apNodes.NearRic.RequestDelete` | src/flexric/src/ric/near_ric.c:807-839 | a message goes out exactly when no deletion of the id is pending |
| `E2apNodes.NearRic.StopPending` | src/flexric/src/ric/msg_handler_ric.c:52-69 | one entry of the event and its timer are removed, nothing else; it is the only one when no two entries wait for one event |
| `E2apNodes.NearRic.Classify` | src/flexric/src/ric/near_ric.c:309-378 | every descriptor that epoll returns is the socket or a pending timer; the assertion of `pend_event` holds |
| `E2apNodes.E2Agent.constructor` | src/flexric/src/agent/e2_agent.c:418-487 | the agent starts with the setup timer armed |
| `E2apNodes.E2Agent.HandleSubscription` | src/flexric/src/agent/msg_handler_agent.c:143-195 | the handler adds the event and its timer, and answers with the same id |
| `E2apNodes.E2Agent.StopIndEvent` | src/flexric/src/agent/msg_handler_agent.c:36-69 | the event of the id and its timer are removed; the result tells whether there was one |
| `E2apNodes.E2Agent.HandleDelete` | src/flexric/src/agent/msg_handler_agent.c:200-222 | a deletion is answered whether or not the id is known |
| `E2apNodes.E2Agent.HandleSetupResponse` | src/flexric/src/agent/msg_handler_agent.c:295-327 | one setup timer is stopped and removed |
| `E2apNodes.E2Agent.HandleLinkLoss` | src/flexric/src/agent/not_handler_agent.c:13-28 | one more setup timer is armed, whether or not one waits |
| `E2apNodes.E2Agent.Classify` | src/flexric/src/agent/e2_agent.c:166-296 | every descriptor that epoll returns is one of four kinds; the only assertion of the event loop that can fail is that of `pend_event`, exactly when more than one setup waits |
| `Policies.ScaleFalls` | xapps/voiceguard_rf_3ue/common.py:17-23 | a stronger policy leaves the video less, and only a stronger one |
| `Policies.Nearest` | xapps/voiceguard_rf_3ue/common.py:92-96 | the first policy at the least distance from a factor |
| `Policies.TrafficScale` | xapps/voiceguard_rf_3ue/common.py:67-96 | asked for the scale of a policy, the file holds that scale for every video terminal and 1 for voice; asked for anything else, the nearest policy after clamping |
| `Policies.NearestIs` | xapps/voiceguard_rf_3ue/common.py:92-96 | the nearest policy of a factor in figures: the choice changes at 0.55, 0.775 and 0.925, and goes to the weaker policy there |
| `Policies.QuantileIsUnique` | xapps/voiceguard_rf_3ue/train.py:154-163 | the quantile rule leaves no choice, so runtime and trainer agree on equal inputs |
| `Policies.QuantileIsMonotone` | xapps/voiceguard_rf/voiceguard_rf.py:417-424 | a larger quantile, or probability shifted towards stronger policies, never gives a weaker policy |
| `Policies.RuntimeQuantile` | xapps/voiceguard_rf/voiceguard_rf.py:417-424 | the loop with a preset last policy and a break selects the first policy whose cumulative probability reaches the quantile, else the last |
| `Policies.TrainerQuantile` | xapps/voiceguard_rf_3ue/train.py:154-163 | the for-else form selects by the same rule |
| `Policies.RiskPredictions` | xapps/voiceguard_rf_3ue/train.py:150-163 | every evaluated group gets the policy of the rule, and no other group gets one |
| `VoiceGuard.WritesOnChange` | xapps/voiceguard_rf/voiceguard_rf.py:425-518 | the control file is written exactly when the policy changes |
| `VoiceGuard.ChangesIff` | xapps/voiceguard_rf/voiceguard_rf.py:352-518 | told before the sample: the policy changes if and only if the guards of its branch hold - collecting, first decision, escalation or restore |
| `VoiceGuard.InStepIff` | xapps/voiceguard_rf/voiceguard_rf.py:352-518 | a file that agrees with the policy still agrees after a sample if and only if the sample does not call for a change whose write fails, told before the sample |
| `VoiceGuard.FailedWriteLeavesFileBehind` | xapps/voiceguard_rf/voiceguard_rf.py:425-436 | an input that fails: the policy is EQUAL_100 and the file still holds 0.85 |
| `VoiceGuard.AlwaysInStep` | xapps/voiceguard_rf/voiceguard_rf.py:352-518 | as long as no write fails, the file holds the scale of the current policy after every sample of every run |
| `VoiceGuard.ObserveOnly` | xapps/voiceguard_rf/voiceguard_rf.py:352-518 | a runtime that only observes stays at EQUAL_100 and scale 1.0 for ever |
| `VoiceGuard.FirstDecision` | xapps/voiceguard_rf/voiceguard_rf.py:402-445 | the first decision of a call is the choice of the model and starts the evidence from nothing |
| `VoiceGuard.CallStep` | xapps/voiceguard_rf/voiceguard_rf.py:388-476 | one sample in a call: the level stays or rises by one, and rises only when the evidence is complete |
| `VoiceGuard.CallLasts` | xapps/voiceguard_rf/voiceguard_rf.py:446-476 | while a combination of calls lasts the level never falls |
| `VoiceGuard.CounterIsEvidence` | xapps/voiceguard_rf/voiceguard_rf.py:388-476 | the counter of bad samples is the number of unhealthy processed samples in a row since the last change |
| `VoiceGuard.RiseFollowsEvidence` | xapps/voiceguard_rf/voiceguard_rf.py:446-476 | main result: each rise is by one level and follows the required number of unhealthy processed samples in a row, all since the previous change |
| `VoiceGuard.SilentStep` | xapps/voiceguard_rf/voiceguard_rf.py:499-518 | one sample in silence: the level falls by one if and only if the sample is processed, protection is left and the time has come |
| `VoiceGuard.FallsAreApart` | xapps/voiceguard_rf/voiceguard_rf.py:499-518 | a fall that was written is followed by the next one the restore step later or more |
| `VoiceGuard.RestoreSpacingIff` | xapps/voiceguard_rf/voiceguard_rf.py:499-518 | main result: after a fall the next one waits for the restore step, whatever later samples come, if and only if the write succeeds, or there is no step to wait for, or no level is left |
| `VoiceGuard.FailedRestoreIsNotSpaced` | xapps/voiceguard_rf/voiceguard_rf.py:499-518 | an input that fails: two levels fall at one time because the first write fails |
| `VoiceGuard.FallsTakeOneLevel` | xapps/voiceguard_rf/voiceguard_rf.py:499-518 | a silent period reaches EQUAL_100 after as many falls as its starting level, and stays there |
| `VoiceGuard.RestoreCompletes` | xapps/voiceguard_rf/voiceguard_rf.py:499-518 | samples a restore step apart lower the level by one each, until it is zero: the restore is not slower than it must be |
| `CallDecision.Collecting` | xapps/voiceguard_rf/voiceguard_rf.py:366-402 | liveness: after k samples of a new combination the history holds the smaller of k and the window, and the decision has been made if and only if the inference succeeded at the sample that filled the window or at a later one; before that the policy stays |
| `CallDecision.ChoiceIs` | xapps/voiceguard_rf/voiceguard_rf.py:402-424 | the choice in figures: the class named, or STRONG_40 for an unknown one; with a quantile the first policy at which the probabilities add up to it |
| `CallDecision.Decision` | xapps/voiceguard_rf/voiceguard_rf.py:402-440 | main result: the first successful inference at a full window decides with the choice of the model for that sample, and in a closed loop the policy is that choice and the file its scale |
| `CallDecision.Escalation` | xapps/voiceguard_rf/voiceguard_rf.py:441-476 | the required number of unhealthy samples in a row, and no fewer, raises a level by one, up to STRONG_40, and the video goes to 0.85, 0.7 or 0.4 |
| `CallDecision.CallEndsOneLevelUp` | xapps/voiceguard_rf/voiceguard_rf.py:352-476 | main result: samples that fill the window and the required unhealthy ones after them end one level above the choice of the model, from any state before the call |
| `CallDecision.ThreeSamplesDecide` | xapps/voiceguard_rf/voiceguard_rf.py:386-440 | an instance: three samples with a window of three put STRONG_40 in force, two do not |
| `CallDecision.SilenceGivesBack` | xapps/voiceguard_rf/voiceguard_rf.py:499-518 | from STRONG_40 three silent samples, each the restore step after the last, give 0.7, 0.85 and 1 |
| `CallDecision.KeepsTheLast` | xapps/voiceguard_rf/voiceguard_rf.py:388-389 | the history is cut as the slice history[-window:], for every window |
| `VoiceGuard.Runtime.constructor` | xapps/voiceguard_rf/voiceguard_rf.py:299-305 | the variables of the loop at its start |
| `VoiceGuard.Runtime.NoteSignature` | xapps/voiceguard_rf/voiceguard_rf.py:366-386 | a new combination of calls, or silence, clears history and decision; silence sets the time of the first restore |
| `VoiceGuard.Runtime.ApplyPolicy` | xapps/voiceguard_rf/voiceguard_rf.py:425-436 | in a closed loop a change of policy is written, unless the write fails |
| `VoiceGuard.Runtime.CallTurn` | xapps/voiceguard_rf/voiceguard_rf.py:395-476 | collecting, deciding or escalating |
| `VoiceGuard.Runtime.SilentTurn` | xapps/voiceguard_rf/voiceguard_rf.py:499-518 | the gradual restore |
| `VoiceGuard.Runtime.TakeSample` | xapps/voiceguard_rf/voiceguard_rf.py:352-555 | one turn of the loop, with the errors that leave it early |
| `VoiceGuard.Runtime.ControlLoop` | xapps/voiceguard_rf/voiceguard_rf.py:306-571 | the loop follows its specification over any samples, and every exit leaves the video at full scale unless the last write fails |
| `Collector.LabelIsLeastRestrictive` | xapps/voiceguard_rf_3ue/collect.py:348-348 | a policy is the label if and only if it is the least restrictive acceptable one, or the strongest when none is acceptable |
| `Collector.LabelByLimits` | xapps/voiceguard_rf_3ue/collect.py:150-157 | the label told by the five limits: 3/4 of samples within the SLA, 19/20 delivered, at most 2 percent lost, 30 ms jitter and 60 ms round trip |
| `Collector.EachLimitIsNeeded` | xapps/voiceguard_rf_3ue/collect.py:150-157 | a full-scale window that misses one limit alone does not give the label EQUAL_100 |
| `Collector.LoadKeeps` | xapps/voiceguard_rf_3ue/collect.py:260-273 | what is resumed is complete for every listed scenario and holds no row of any other |
| `Collector.GrowKeeps` | xapps/voiceguard_rf_3ue/collect.py:333-346 | rows of scenarios that are not listed do not disturb the listed ones |
| `Collector.MeasureUnderway` | xapps/voiceguard_rf_3ue/collect.py:313-346 | each policy window is appended once, in order, and the baseline is that of EQUAL_100 |
| `Collector.UnderwayIsComplete` | xapps/voiceguard_rf_3ue/collect.py:348-370 | a scenario is complete when its result is appended |
| `Collector.ReplaceLists` | xapps/voiceguard_rf_3ue/collect.py:209-222 | between any two of the three file replacements the mixed files still hold every listed scenario completely |
| `Collector.StepKeeps` | xapps/voiceguard_rf_3ue/collect.py:301-394 | every step keeps the invariant: start, measurement, training rows, result, file replacement, interruption, crash |
| `Collector.RunKeeps` | xapps/voiceguard_rf_3ue/collect.py:301-394 | so it holds after every run of steps |
| `Collector.FilesAreConsistent` | xapps/voiceguard_rf_3ue/collect.py:209-222 | main result: however often and wherever a campaign was interrupted or killed, every scenario in the results file is there once with its complete rows in the other two files |
| `Collector.FinishedHoldsGrid` | xapps/voiceguard_rf_3ue/collect.py:301-394 | main result: a process that ran to its end leaves every scenario of its grid in the files exactly once, complete |
| `Collector.StepKeepsResult` | xapps/voiceguard_rf_3ue/collect.py:209-222 | no step loses or alters a recorded scenario or its rows |
| `Collector.ResultsStay` | xapps/voiceguard_rf_3ue/collect.py:260-273 | nor does any later run |
| `Collector.FreshRestartIff` | xapps/voiceguard_rf_3ue/collect.py:261-273 | a restart without --resume that is stopped after its first file replacement leaves the files consistent if and only if no scenario was complete yet |
| `Collector.FreshRestartLosesRows` | xapps/voiceguard_rf_3ue/collect.py:261-273 | an input that fails: consistent files with one scenario, whose rows are gone afterwards while its result is listed |
| `CollectorProcess.Alternate` | xapps/voiceguard_rf_3ue/collect.py:182-186 | the loop takes from the two ends of the sorted pairs in turn, and every pair once |
| `CollectorProcess.ScenarioGrid` | xapps/voiceguard_rf_3ue/collect.py:182-191 | from the sorted pairs on: every round has the alternated pairs in their order, with the ids that the truncation to percents gives |
| `CollectorProcess.GridIdsDistinctIff` | xapps/voiceguard_rf_3ue/collect.py:302-303 | main result: for every function that int(scale * 100) may be in binary arithmetic and every order of the pairs, the ids of the grid are distinct if and only if no two levels get one percent |
| `CollectorProcess.BinaryLevelsCollide` | xapps/voiceguard_rf_3ue/collect.py:302-303 | an input that fails: the levels 0.28 and 0.29, of which binary arithmetic makes 28 both |
| `CollectorProcess.CloseLevelsCollide` | xapps/voiceguard_rf_3ue/collect.py:302-303 | an input that fails in exact arithmetic too: the levels 0.251 and 0.252 |
| `CollectorProcess.CompletedRaw` | xapps/voiceguard_rf_3ue/collect.py:266-269 | the list comprehension keeps the rows of completed scenarios, in order |
| `CollectorProcess.CompletedTraining` | xapps/voiceguard_rf_3ue/collect.py:270-273 | the same for the training rows |
| `CollectorProcess.Process.Resume` | xapps/voiceguard_rf_3ue/collect.py:260-273 | the start of a process with --resume is the start step |
| `CollectorProcess.Process.StartFresh` | xapps/voiceguard_rf_3ue/collect.py:260-273 | the start without --resume: empty lists, the files as they were, and the invariant if no scenario was complete |
| `CollectorProcess.Process.TryPolicy` | xapps/voiceguard_rf_3ue/collect.py:313-346 | one turn of the policy loop |
| `CollectorProcess.Process.TryPolicies` | xapps/voiceguard_rf_3ue/collect.py:313-346 | the raw rows grow by the four windows of the plan in their order |
| `CollectorProcess.Process.AppendTraining` | xapps/voiceguard_rf_3ue/collect.py:349-359 | the baseline samples become training rows with the chosen label |
| `CollectorProcess.Process.RunScenario` | xapps/voiceguard_rf_3ue/collect.py:301-370 | a scenario appends its windows, its training rows and one result with its label |
| `CollectorProcess.Process.Checkpoint` | xapps/voiceguard_rf_3ue/collect.py:194-222 | after the three replacements the files are the lists in memory |
| `CollectorProcess.Process.Collect` | xapps/voiceguard_rf_3ue/collect.py:301-394 | the whole loop: every grid scenario is listed once and complete, after those that were complete before |
| `PythonText.SplitAppend` | experiment-manager/backend/app/config_generator.py:31-31 | splitlines starts afresh after a newline |
| `PythonText.SplitPrefix` | experiment-manager/backend/app/config_generator.py:31-31 | text without line breaks in front of a text joins its first line |
| `PythonText.RereadConcat` | experiment-manager/backend/app/config_generator.py:50-50 | joined lines are read back piece by piece |
| `PythonText.RereadSame` | experiment-manager/backend/app/config_generator.py:50-50 | lines without breaks are read back as they are |
| `SectionEdit.KeyOfPadded` | experiment-manager/backend/app/config_generator.py:41-46 | a line the editor wrote is recognised by the key pattern as the key it was written for |
| `SectionEdit.ReEdit` | experiment-manager/backend/app/config_generator.py:42-48 | editing the edited section again gives the same section |
| `SectionEdit.EditCount` | experiment-manager/backend/app/config_generator.py:42-48 | an edit never shortens the section, and keeps its length only when every key is found and every value stays on its line |
| `SectionEdit.EditSets` | experiment-manager/backend/app/config_generator.py:42-48 | after the edit each given key has its new value on its first line, and every other key the line it had |
| `SectionEdit.OutsideIsKept` | experiment-manager/backend/app/config_generator.py:29-50 | whatever the keys and values are, no line up to the header and none after the section changes; with identifier keys and one-line values what lies between is the section again |
| `SectionEdit.IdempotentIff` | experiment-manager/backend/app/config_generator.py:29-50 | main result: setting the same values again changes nothing if and only if every key is an identifier and every value stays on its line |
| `SectionEdit.TwoLineValueIsNotIdempotent` | experiment-manager/backend/app/config_generator.py:29-50 | an input that fails: a value of two lines |
| `SectionEdit.DashedKeyIsNotIdempotent` | experiment-manager/backend/app/config_generator.py:41-48 | an input that fails: a key with a dash is added a second time |
| `SectionEdit.EditsCommute` | experiment-manager/backend/app/config_generator.py:29-50 | edits of two different sections give one text in either order, for identifier keys and line-free values |
| `SectionEdit.EditsCommuteIff` | experiment-manager/backend/app/config_generator.py:29-50 | main result: for all keys and values, unless the edit of the earlier section brings in a header of the later one and that edit sets something, the two orders give one text if and only if newlines are the only line breaks in keys and values |
| `SectionEdit.InjectedHeaderIff` | experiment-manager/backend/app/config_generator.py:29-50 | when it does bring in the header, with no other breaks than newlines and no header in the other edit, the orders agree if and only if the other edit has nothing to change, in the section brought in and in the section itself |
| `SectionEdit.InjectedHeaderDoesNotCommute` | experiment-manager/backend/app/config_generator.py:29-50 | in every text with two sections a value of a line and the header of the later section makes the orders differ, for every edit that sets something anew |
| `SectionEdit.OpenerInEdit` | experiment-manager/backend/app/config_generator.py:42-48 | an edited section holds a line that opens a section if and only if such a line is written |
| `SectionEdit.CarriageReturnDoesNotCommute` | experiment-manager/backend/app/config_generator.py:29-50 | in every text with two sections the value "1" and a carriage return makes the orders differ |
| `SectionEdit.ReplaceLines` | experiment-manager/backend/app/config_generator.py:38-48 | the loop with its dictionary of pending values makes the edited section |
| `SectionEdit.SetSectionValues` | experiment-manager/backend/app/config_generator.py:29-50 | the function, with its error for a missing section |
| `SectionLines.FirstLineSplits` | experiment-manager/backend/app/config_generator.py:31-31 | each of the ten break characters of `splitlines`, and a return with a newline, ends one line |
| `SectionLines.KeyOfIff` | experiment-manager/backend/app/config_generator.py:40-43 | a line holds a key if and only if it is white space, a # or none, white space, the key in letters, digits and underscores, white space and an equals sign |
| `SectionLines.FormatIs` | experiment-manager/backend/app/config_generator.py:45-45 | the line written: the key filled up with blanks to fourteen characters, an equals sign, a blank and the value |
| `SectionLines.OneKeyIsSet` | experiment-manager/backend/app/config_generator.py:38-50 | the first line of the section that holds the key, commented out or not, is replaced in its place; all other lines stay |
| `SectionLines.NewKeyComesLast` | experiment-manager/backend/app/config_generator.py:48-50 | a key that no line holds comes behind the last line of its section |
| `SectionLines.CommentIsReplaced` | experiment-manager/backend/app/config_generator.py:29-50 | on the text: a line `#key = off` gives way to the key and its new value |
| `Secrets.WordIsUnique` | experiment-manager/backend/app/config_generator.py:19-21 | at most one alternative of the pattern fits at a place |
| `Secrets.MatchIs` | experiment-manager/backend/app/config_generator.py:19-21 | a field in front of a line end is matched as it is |
| `Secrets.MatchShape` | experiment-manager/backend/app/config_generator.py:19-21 | whatever is matched is white space, a key, an equals sign and the rest of the line, up to a line end |
| `Secrets.UnscanScan` | experiment-manager/backend/app/config_generator.py:118-119 | the matches and the characters between them are the text |
| `Secrets.NoneKept` | experiment-manager/backend/app/config_generator.py:19-21 | whether the pattern matches before a field does not depend on the field |
| `Secrets.Resecret` | experiment-manager/backend/app/config_generator.py:118-137 | when fields are exchanged for other fields, the new text is scanned as it was put together |
| `Secrets.ScanRedact` | experiment-manager/backend/app/config_generator.py:118-119 | the redacted text has the same fields, each with the mask as its value |
| `Secrets.RedactIff` | experiment-manager/backend/app/config_generator.py:118-119 | two texts look the same when redacted if and only if they differ in secret values only |
| `Secrets.RedactIsIndependent` | experiment-manager/backend/app/config_generator.py:118-119 | whatever the secret values are exchanged for, the redacted text is the same |
| `Secrets.RedactTwice` | experiment-manager/backend/app/config_generator.py:118-119 | redacting twice is redacting once |
| `SecretLines.MatchesIff` | experiment-manager/backend/app/config_generator.py:20-22 | the expression matches at the start of a line if and only if a line begins there of white space, one of the words opc, op, k, pin and password in any case, white space, an equals sign and a value |
| `SecretLines.RedactLine` | experiment-manager/backend/app/config_generator.py:118-119 | the value of any such line is replaced by ` ******** (redacted)` and nothing else changes |
| `SecretLines.RedactLineThen` | experiment-manager/backend/app/config_generator.py:118-119 | the text behind such a line is redacted as if it stood alone |
| `SecretLines.NothingToRedact` | experiment-manager/backend/app/config_generator.py:118-119 | a text without such a line is shown as it is |
| `SecretLines.KeysAreHidden` | experiment-manager/backend/app/config_generator.py:118-119 | two instances: opc of a UE configuration, and a password in capitals |
| `SecretLines.NameOfOtherForms` | experiment-manager/backend/app/config_generator.py:123-128 | the Kelvin sign is a k, and a pin with a dotted capital I is secret too, under a name of its own |
| `SecretLines.NameOf` | experiment-manager/backend/app/config_generator.py:123-128 | a key is known by its word in small letters |
| `Secrets.ScanMerged` | experiment-manager/backend/app/config_generator.py:122-137 | the fields of an accepted merge are those of the submitted text, put back by key |
| `Secrets.MergeProtects` | experiment-manager/backend/app/config_generator.py:122-137 | main result: whatever is submitted, an accepted merge holds every secret field of the original, and every field with such a key is the original's to the last character |
| `Secrets.RoundTripIff` | experiment-manager/backend/app/config_generator.py:118-137 | main result: merging the redacted text is always accepted, and gives the original back if and only if fields with the same key are written the same, in particular when each key occurs once |
| `Secrets.RepeatedKeyIsNotRestored` | experiment-manager/backend/app/config_generator.py:123-137 | two fields with one key that are written differently never come back as they were |
| `Secrets.RoundTripFails` | experiment-manager/backend/app/config_generator.py:123-137 | an input that fails: the lines k=1 and k=2 |
| `Secrets.CollectOriginals` | experiment-manager/backend/app/config_generator.py:123-123 | the dictionary keeps the last field of each key |
| `Secrets.MergeSensitive` | experiment-manager/backend/app/config_generator.py:122-137 | the substitution and its two errors: the first edited field, then the missing ones |
| `SecretLines.EditIsRefused` | experiment-manager/backend/app/config_generator.py:126-132 | a first such line whose value does not hold (redacted) is refused with its key, whatever the original and the rest |
| `SecretLines.RemovalIsRefused` | experiment-manager/backend/app/config_generator.py:134-136 | a text without secret lines is refused for an original with one |
| `SecretLines.MaskIsExchanged` | experiment-manager/backend/app/config_generator.py:126-133 | a line that comes back with the mask, however laid out, gives way to the original line of its key |

## Left out

- SectionEdit.InjectedHeaderIff: does not cover an edit that brings in a header of the later section together with one that brings in headers too, or with other line breaks than newlines; there the texts can agree by repeating each other.
- CollectorProcess.ScenarioGrid: starts with the pairs as `sort` has left them; `CollectorProcess.GridIdsDistinctIff` holds for any order.
- Snprintf.Conversion: does not model the store that `%n` makes through its argument; the argument is taken.
- E2ap.SubscribeKeeps: asks for an id that no live event has and, for an aperiodic subscription, for a number that no other one uses. Else the two trees of the bimap hold equal keys, and which of them a deletion takes out depends on the shape of the trees, which are not modelled.
- E2apNodes.E2Agent.HandleSubscription: the same cases as `E2ap.SubscribeKeeps`.
- `build_table`: the 256-entry table of character classes and token rows is replaced by predicates on bytes and by the token list in source order; the first match is the same because a row keeps the order of the list.
- `unify_hash`: mapping the file into memory; the byte after the text, which an unclosed literal makes `unify` read, is a parameter.
- `fmtfp`: floating point conversions are a parameter of `Snprintf.Dopr`, an arbitrary function from the arguments to a text.
- `%w`: the character that `%w` reads after a format ending in it is taken to be NUL.
- Width and precision in a format are unbounded numbers; the wrap-around of an int is not modelled.
- `vasprintf`: reuse of the argument list for the second pass, and allocation failure.
- `stats.c`: locking, opening and closing of the file, `stats_zero`, `stats_set_limits` and the printed summary.
- `cleanup.c`: 0.8 of a limit is `limit * 4 / 5`, what the product of doubles is truncated to below 2^32; `qsort` is an insertion sort; walking directories, freeing memory, `cleanup_all` and `wipe_all`.
- E2 setup retransmission, setup responses that answer no request, and setup failure.
- Messages lost with the link: a lost link arms a setup timer, but what is in flight still arrives; the order towards the agent is kept.
- The aperiodic queue and the pipe that wakes the agent, sockets, epoll, timerfd, SCTP, ASN.1, service models and iApp callbacks: a descriptor is a number that is fresh among the watched ones, a message is its kind and its id. A pending timer that expires is not modelled.
- The runs of `E2ap` give a request only when its number is fresh; `E2ap.FreshAcrossWraps` tells when the counter supplies one.
- `bimap.c` and its red-black trees: a bimap is a finite map from its left keys, and of equal right keys an extraction takes any.
- VoiceGuard: feature extraction and medians are an arbitrary health flag per sample, the model an arbitrary prediction, its probabilities real numbers; the RC bridge, the KPM view and the state file are not modelled. An error while the state file is written after an earlier error ends the loop, which is the end of the samples.
- Rule V1 of VoiceGuard, metrics, traffic generators and the reports of the trainer: only easier members.
- Collector: `summarize_policy` is an arbitrary summary with the right number of samples; files are read back as they were written; `int(scale * 100)` is an arbitrary function of the level, so nothing is said about which levels binary rounding makes equal beyond those named; the text form of ids, the manifest, HTTP requests and the stable sort of the pairs.
- `render_ue_config`, validation, the writing of config files and the broker template: calls of what is modelled, or checks of one field.
