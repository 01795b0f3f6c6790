# Portrait renamer, modelled in Dafny

The IE-EE portrait renamer prepares a folder of portrait bitmaps for a game
engine that only accepts short file names. It runs in one of two modes.

- **Sequential mode** renames every `.bmp` file of the folder, in enumeration
  order, to `prefix + counter + original extension`. The counter starts at 0.
  The run aborts at the first target name that already exists, and renames
  already made are not undone.
- **Random mode** moves every bitmap to a random name with the extension
  `bmp`. Users run it to clear name collisions before a sequential run.

Before either pass, the run checks three things:

- the folder must exist;
- in sequential mode only, the prefix must be at most 4 characters long, as
  `String.Length` counts them: in UTF-16 code units (`Text.Utf16Length`);
- in sequential mode only, there must be at most 9999 bitmaps.

Together the last two checks keep every new name within 8 characters before
its extension.

The model works on one flat folder. A folder is a map from bare file names to
the identity of each file's contents (`Folder.Dir`). A run is a pure function
`Renamer.Run` of:

- the parsed options;
- whether the folder exists;
- the folder;
- the order in which the folder's enumeration returns its files;
- an oracle for the names `Path.GetRandomFileName` would draw.

`Run` returns the folder as the run leaves it: on completion, or on abort
with its partial effect. It also returns the report or the error.

Both passes are instances of one loop, `Moves.MoveEach`. It moves source `i`
to target `i`, in order, and stops for good at the first move that cannot be
made. The central theorem is `Moves.MoveEachOutcome`. It relates the loop to
a static description of the plan:

- Move `i` is *blocked* (`Moves.Blocked`) when, judged against the folder
  before the run, its target is any of:
  - the empty name (a move onto the folder path fails);
  - a file that no earlier move has cleared;
  - the target of an earlier move.
- The loop completes exactly when no move is blocked.
- Otherwise it halts at the first blocked move. The folder is then exactly
  the folder after the earlier moves (`Moves.MovedUpTo`):
  - those sources sit under their targets with their contents;
  - every later source and every file not planned to move is untouched;
  - no other file exists.

For sequential mode, `Renamer.SequentialBlockedIffCollides` shows that
blocked means *collides* (`Renamer.Collides`): the target names a file of the
original folder that is not one of the bitmaps renamed before it. This holds
because targets of different counters differ.

Notes on the source:

- The source comment on the 9999 bound says that more files would need names
  longer than 8 characters. The bound is one stricter than that:
  `Numerals.FourDigits` shows that counters up to 9999 all fit in four digits,
  so 10000 bitmaps (counters 0 to 9999) would still fit. The model keeps the
  source's bound. Exactly 9999 bitmaps are accepted and 10000 are refused.
- The existence check also sees the file being renamed. A bitmap that already
  bears its own target name, such as `0.bmp` listed first with an empty
  prefix, stops the run (`Renamer.SelfNamedBitmapAborts`,
  `Scenarios.AlreadyNamedBitmap`).
- A failed move in the random pass throws out of the `ForEach`. This ends the
  whole run, not just that one move, and the model follows the code.

## Model

| member | source | states |
|---|---|---|
| Paths.Extension | IE-EE-PortraitRenamer/Program.cs:20 | Path.GetExtension on a bare name. The result is empty exactly when the name has no dot or ends in a dot. Otherwise it is a suffix of the name that starts with the last dot and has at least one character after it. |
| Paths.ExtensionOfDottedSuffix | IE-EE-PortraitRenamer/Program.cs:66 | A dotted suffix with no further dot is the extension of any name it ends. This is why a target keeps the source's extension. |
| Paths.ChangeExtension | IE-EE-PortraitRenamer/Program.cs:24 | Path.ChangeExtension. An empty name stays empty. Otherwise the result keeps the name up to its last dot, or the whole name when it has no dot, and then has the dotted new extension. |
| Paths.ChangeExtensionSetsExtension | IE-EE-PortraitRenamer/Program.cs:24 | Changing the extension of a non-empty name to "bmp" gives a name whose extension is ".bmp". |
| Numerals.ToDecimal | IE-EE-PortraitRenamer/Program.cs:68 | The counter in string interpolation is a non-empty string of decimal digits with no leading zero: it starts with '0' exactly for the counter 0, which renders as "0". |
| Numerals.ValueOfToDecimal | IE-EE-PortraitRenamer/Program.cs:68 | Reading the rendered counter back as a decimal number gives the counter. |
| Numerals.ToDecimalInjective | IE-EE-PortraitRenamer/Program.cs:68 | Different counters render to different strings. |
| Numerals.ToDecimalWidth | IE-EE-PortraitRenamer/Program.cs:55-57 | A counter renders in at most k digits exactly when it is below 10^k. |
| Numerals.FourDigits | IE-EE-PortraitRenamer/Program.cs:55-60 | A counter renders in at most four digits exactly when it is at most 9999. |
| Text.Utf16Length | IE-EE-PortraitRenamer/Program.cs:46 | `String.Length`: a string of n characters has between n and 2n UTF-16 code units. |
| Text.Utf16LengthAppend | IE-EE-PortraitRenamer/Program.cs:46 | The code-unit length of a concatenation is the sum of the parts' lengths. |
| Text.Utf16LengthIsLength | IE-EE-PortraitRenamer/Program.cs:46 | The code-unit length equals the number of characters exactly when every character lies in the Basic Multilingual Plane. |
| Bitmaps.IsBitmapName | IE-EE-PortraitRenamer/Program.cs:20 | The filter's test: Path.GetExtension of the name equals ".bmp" under OrdinalIgnoreCase, with case folded for ASCII letters. |
| Bitmaps.BitmapNameBySuffix | IE-EE-PortraitRenamer/Program.cs:20 | Reference definition of the filter. A name is kept exactly when its last four characters equal ".bmp" ignoring ASCII letter case. |
| Bitmaps.GetBitmaps | IE-EE-PortraitRenamer/Program.cs:19-21 | The filter never returns more names than it is given. |
| Bitmaps.GetBitmapsMembers | IE-EE-PortraitRenamer/Program.cs:19-21 | A name is in the filtered list exactly when it is in the listing and is a bitmap name. |
| Bitmaps.GetBitmapsAreBitmaps | IE-EE-PortraitRenamer/Program.cs:19-21 | Every name the filter returns is a bitmap name. |
| Bitmaps.GetBitmapsDistinct | IE-EE-PortraitRenamer/Program.cs:19-21 | A listing without repeats gives a filtered list without repeats. |
| Bitmaps.GetBitmapsAppend | IE-EE-PortraitRenamer/Program.cs:19-21 | Filtering commutes with concatenation, so the filter keeps listing order. |
| Bitmaps.GetBitmapsSingle | IE-EE-PortraitRenamer/Program.cs:20 | A one-file listing keeps its file exactly when it is a bitmap name. |
| Bitmaps.GetBitmapsCons | IE-EE-PortraitRenamer/Program.cs:19-21 | Filtering a listing is filtering its first file followed by filtering the rest. |
| Bitmaps.BitmapNameExamples | IE-EE-PortraitRenamer/Program.cs:20 | "x.BMP", "a.bMp" and ".bmp" are bitmaps: the comparison ignores case, and a name that is only an extension counts. |
| Bitmaps.NotBitmapNameExamples | IE-EE-PortraitRenamer/Program.cs:20 | "x.bmp.txt", "bmp" and "x.bmp." are not bitmaps: only the last extension counts, and a trailing dot means no extension. |
| Folder.Move | IE-EE-PortraitRenamer/Program.cs:75 | File.Move onto a free name. The target holds the source's contents, the source name is gone, every other file is unchanged and nothing else appears. The file count is kept. |
| Folder.MoveKeepsContents | IE-EE-PortraitRenamer/Program.cs:75 | A move keeps the multiset of contents: every content is held by as many files before as after. |
| Folder.MoveKeepsCopies | IE-EE-PortraitRenamer/Program.cs:75 | For each content, the number of files holding it is the same before and after a move. |
| Moves.Taken | IE-EE-PortraitRenamer/Program.cs:70 | File.Exists on a target name, which in the sequential pass is never empty (`Renamer.TargetNotEmpty`): a file of that name is in the folder. The empty name, which only the random-name oracle can produce, counts as taken because File.Move onto the folder path fails. |
| Moves.MoveEach | IE-EE-PortraitRenamer/Program.cs:64-78 | The loop over both passes keeps the number of files. It completes having made all moves, or halts at an index from its starting point on. |
| Moves.MoveEachKeepsContents | IE-EE-PortraitRenamer/Program.cs:64-78 | However the loop ends, the folder holds the same multiset of contents it started with. |
| Moves.TakenIffBlocked | IE-EE-PortraitRenamer/Program.cs:70 | In the folder after the first i moves, target i exists on disk exactly when move i is blocked by the static criterion. |
| Moves.NextMove | IE-EE-PortraitRenamer/Program.cs:70-77 | After i moves, source i is still present. Its target is taken exactly when the move is blocked. Otherwise making the move gives the folder after i + 1 moves. |
| Moves.HaltHere | IE-EE-PortraitRenamer/Program.cs:70-73 | A run that reaches a taken target halts there with TargetTaken and an unchanged folder. |
| Moves.StepOn | IE-EE-PortraitRenamer/Program.cs:75-77 | A free move is made and the run continues from the next index. |
| Moves.MoveEachFrom | IE-EE-PortraitRenamer/Program.cs:64-78 | From the folder after i unblocked moves, the run completes when nothing later is blocked. Otherwise it halts for a taken target at the first blocked move, with exactly the earlier moves made. |
| Moves.MoveEachOutcome | IE-EE-PortraitRenamer/Program.cs:64-78 | The whole loop completes exactly when no move is blocked, and then every move is made. Otherwise it halts at the first blocked move, never for a missing source, with the earlier moves made and the rest untouched. |
| Renamer.SequentialRename | IE-EE-PortraitRenamer/Program.cs:62-80 | The sequential pass keeps the file count and the contents. On success it reports the number of bitmaps. It can only abort with TargetExists or a missing source. |
| Renamer.RandomRename | IE-EE-PortraitRenamer/Program.cs:23-24 | The random pass keeps the file count and the contents. On success it reports the finish message. It can only abort with a failed move or a missing source. |
| Renamer.Run | IE-EE-PortraitRenamer/Program.cs:30-80 | The run keeps file count and contents. InvalidDirectory happens exactly when the folder is missing, in both modes. InvalidPrefix happens exactly for a sequential run with a prefix longer than 4 UTF-16 code units. TooManyFiles happens exactly for a sequential run with a valid prefix and more than 9999 bitmaps. These three errors leave the folder unchanged. The success report is the count of bitmaps in sequential mode and the finish message in random mode. |
| Renamer.Target | IE-EE-PortraitRenamer/Program.cs:66-68 | The target for the bitmap with counter i: the prefix, then the counter in decimal, then Path.GetExtension of the source. |
| Renamer.TargetNotEmpty | IE-EE-PortraitRenamer/Program.cs:66-70 | A sequential target is at least one character longer than its prefix, whatever the prefix and source, because it holds the counter's digits. So it is never empty. |
| Renamer.TargetShape | IE-EE-PortraitRenamer/Program.cs:55-68 | Below the count limit and with a valid prefix, a target starts with the prefix, then the counter in digits that read back as the counter, then the source's own four-character extension with its letter case. It is a bitmap name with at most 8 characters before the extension. |
| Renamer.AcceptedTargetsFit | IE-EE-PortraitRenamer/Program.cs:46-68 | When both checks pass, every sequential target is a bitmap name of at most 12 characters: at most 8 before the extension. |
| Renamer.TargetStemFits | IE-EE-PortraitRenamer/Program.cs:46-60 | With a prefix of at most 4 UTF-16 code units and a counter below 9999, the prefix and counter together take at most 8 UTF-16 code units, the limit the source's comment on the count check names. |
| Renamer.TargetInjective | IE-EE-PortraitRenamer/Program.cs:68 | For any two bitmap sources, targets with different counters differ. |
| Renamer.SequentialBlockedIffCollides | IE-EE-PortraitRenamer/Program.cs:68-72 | In sequential mode a move is blocked exactly when its target names a file of the original folder that is not one of the bitmaps renamed before it. |
| Renamer.SequentialRenameOutcome | IE-EE-PortraitRenamer/Program.cs:62-80 | The sequential pass completes exactly when no target collides. Then it reports the number of bitmaps and every bitmap sits under its target with its contents. Otherwise it aborts with TargetExists at the first colliding target, naming that target, with the earlier bitmaps renamed and that one and every later one untouched. |
| Renamer.SequentialCompletesIff | IE-EE-PortraitRenamer/Program.cs:62-80 | Corollary of SequentialRenameOutcome. For a valid plan of bitmaps, the sequential pass completes exactly when no target collides with a file of the original folder that was not renamed before it. |
| Renamer.SequentialRunOutcome | IE-EE-PortraitRenamer/Program.cs:46-80 | A sequential run that passes its checks is the sequential pass over the listing's bitmaps in listing order. It completes exactly when no target collides, and it can only abort with TargetExists. Files that are not bitmaps keep their names and contents. |
| Renamer.SelfNamedBitmapAborts | IE-EE-PortraitRenamer/Program.cs:66-73 | For every bitmap that already bears its own target name, the run aborts with TargetExists at that bitmap's index or earlier. |
| Renamer.RandomRunOutcome | IE-EE-PortraitRenamer/Program.cs:23-44 | A random run skips the prefix and count checks. It completes exactly when no move is blocked, and then every bitmap sits under a ".bmp" name with its contents. Otherwise it aborts with a failed move at the first blocked move, with the earlier moves made and the rest untouched. |
| Renamer.RandomTargetIsBitmap | IE-EE-PortraitRenamer/Program.cs:24 | Every non-empty random target is a bitmap name. |
| Scenarios.TwoBitmapsAndANote | IE-EE-PortraitRenamer/Program.cs:30-80 | With prefix "p_", "a.bmp", "notes.txt" and "b.bmp" become "p_0.bmp", "notes.txt" and "p_1.bmp" with contents kept, and 2 files are reported. |
| Scenarios.AlreadyNamedBitmap | IE-EE-PortraitRenamer/Program.cs:66-73 | "0.bmp" alone with an empty prefix aborts with TargetExists on "0.bmp" and the folder unchanged. |
| Scenarios.AbortKeepsEarlierRenames | IE-EE-PortraitRenamer/Program.cs:64-78 | Listing "a.bmp", "b.BMP", "1.BMP" with an empty prefix renames "a.bmp" to "0.bmp", then aborts on "1.BMP" and leaves the other two files alone. |
| Scenarios.WidePrefixRejected | IE-EE-PortraitRenamer/Program.cs:46-50 | A prefix of three U+1D538 characters is six UTF-16 code units, so a sequential run on any folder is rejected with InvalidPrefix and the folder unchanged. |
| Scenarios.NarrowPrefixAccepted | IE-EE-PortraitRenamer/Program.cs:46-80 | The four-letter prefix "abcd" passes the check: an empty folder completes with 0 files processed. |

## Left out

- Command-line parsing (Program.cs lines 1-15 and 28) is not modelled; the model starts from the parsed options. This includes the long option written as "--random-rename", so the parser's long name carries two extra dashes. Parse errors and the help text are left out too.
- The folder path is not modelled: the model has one folder. Path.Combine and Path.GetDirectoryName only rebuild paths in that folder. A prefix that contains a directory separator, which would move files elsewhere, is out of scope.
- Directory.Exists is a boolean input.
- Directory.EnumerateFiles is a listing input; the theorems assume it lists every file of the folder exactly once (`Folder.IsListingOf`). Enumeration order comes from the filesystem, so it is left free.
- Path.GetRandomFileName is an oracle: the i-th random name is `randomName(i)`. Its uniqueness is not assumed; a collision shows up as a blocked move.
- File.Exists and File.Move compare names exactly, as on a case-sensitive filesystem. Case-insensitive filesystems are not modelled.
- I/O failures other than a missing source or an existing target are not modelled: permissions, locks, full disks, files changing during the run.
- Subdirectories are not modelled: the folder is flat, matching the non-recursive enumeration.
- Console messages and exception texts are left out. The model keeps which error or report occurs and its data, not the wording.
- Bitmaps.EqualsIgnoreCase: OrdinalIgnoreCase is modelled for ASCII letters only; other Unicode case pairs are not folded.
- Renamer.RandomRename: moving a file onto its own name is reported as a failed move, as on any other existing name. The model does not distinguish File.Move's same-name case.
- Moves.Taken: File.Exists is false for the folder path itself, so the source would fail inside File.Move rather than report an existing file for an empty target. The model folds both into one taken target; only the random pass can meet it, and there both end the run as a failed move.
- Integer width: the counter is an `int` in the source. It never exceeds 9999 because of the count check, so no overflow is modelled.
