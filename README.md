# create-platform, modelled in Dafny

`scripts/create-platform.js` scaffolds a new white-label platform from the
`Manch` template. It reads five command-line values: platform name, backend
port, frontend port, primary colour and secondary colour. It then copies the
template tree into a sibling directory named after the platform. Along the way
it leaves out build output, databases and secrets. Every text file that is not
binary goes through a chain of eleven global replacements (`Manch` to the
platform name, `3000` to the backend port, `indigo-` to the primary colour, and
so on). Finally it writes three generated files: `.gitignore`,
`backend/.env.example` and `frontend/.env.example`.

The model is split into modules that follow the script's structure:

- `TextReplace` models `String.prototype.replace` with a global literal
  pattern. It is a left-to-right scan that replaces non-overlapping
  occurrences. The replacement is a template: `$$`, `$&`, `` $` `` and `$'`
  are expanded as in section 22.1.3.19.1 (GetSubstitution) of ECMA-262. The
  scan is proved equal to a second definition in the standard's own terms:
  collect every match by searching on from the end of the previous one, then
  splice the substitutions in.
- `Arguments` models the argument guard and the ASCII lower- and upper-case
  forms of the platform name.
- `Rewrite` models the eleven-step chain as a table of rules applied in order.
- `RewriteExample` follows the script's own usage line,
  `Adda 3100 3102 teal cyan`, through the chain. It also proves three
  behaviours that come from applying the steps one after another:
  - a backend port of `3002` is rewritten a second time, by the frontend-port
    step;
  - a replacement can re-form the pattern it replaced;
  - `$` in a value is read as a template, not as literal text.
- `FileTree` models directory trees as values: a directory is the sequence of
  its entries in listing order. It also models `writeFileSync` on such a tree.
- `Copy` models `copyDirectory` and `copyFile`: the skip list, the binary
  extensions, and `path.extname` on a file name. `copyDirectory` is a method
  whose loop walks the listing. It is proved against the recursive function
  `CopyEntries`, and the shape and contents of the copy are proved from that
  function.
- `EnvFiles` models the three generated files and a dotenv-style reader for
  them. It proves that splitting the joined lines gives the lines back. It
  also proves that, for values without line breaks, the reader finds `PORT`,
  `DATABASE_PATH`, `GOOGLE_CALLBACK_URL`, `FRONTEND_URL` and `OAUTH_ISSUER`
  in the backend file and `NEXT_PUBLIC_API_URL` in the frontend file, each
  with the value the script writes.
- `Scaffold` models one whole run: the guard, the two existence checks, the
  copy, the three writes and the exit status.

Two facts about the code shape the model:

- The guard (line 8) rejects fewer than five values and ignores any extra
  ones.
- The replacement values are JavaScript replacement templates, so a `$&`,
  `` $` ``, `$'` or `$$` in a platform name, port or colour is expanded rather
  than copied.

The rules for `manch.db`, `manch_token`, `manch_user` and `@paypalcorp/manch`
run after `manch` has already been replaced. They only matter when an earlier
replacement brings a `manch` back. `StorageStepsInert` and `PackageStepInert`
state a condition under which they do nothing.

## Model

| member | source | states |
|---|---|---|
| Arguments.ParseArgs | scripts/create-platform.js:7-14 | Fewer than five values is a usage error, and only then; otherwise the five values are the first five arguments, in order, and later ones are ignored. |
| Arguments.LowerCase | scripts/create-platform.js:15 | Same length; no ASCII upper-case letter is left; each character differs from the original only by ASCII case. |
| Arguments.UpperCase | scripts/create-platform.js:16 | Same length; no ASCII lower-case letter is left; each character differs from the original only by ASCII case. |
| TextReplace.Expand | scripts/create-platform.js:101-115 | A replacement template without `$` is inserted as it is. |
| TextReplace.ExpandConcat | scripts/create-platform.js:101-115 | A template that does not end in `$` expands on its own: the expansion of it followed by more text is its expansion followed by that text's. |
| TextReplace.ExpandPatterns | scripts/create-platform.js:101-115 | `` $` ``, `$&` and `$'` give the text before the match, the match and the text after it; `$$` gives one `$`; a `$` before any other character stands for itself, followed by that character, and a lone `$` at the end stands for itself. |
| TextReplace.DollarOther | scripts/create-platform.js:101-115 | A `$` followed by a character other than `$`, `&`, `` ` `` and `'` is kept as written, and expansion goes on after that character. |
| TextReplace.Substitute | scripts/create-platform.js:101-115 | The text put in place of one match is the template itself when the template has no `$`. |
| TextReplace.Scan | scripts/create-platform.js:101-115 | A `$`-free replacement as long as the pattern keeps the text's length. |
| TextReplace.ReplaceAll | scripts/create-platform.js:101-115 | `replace(/pat/g, tmpl)` as a left-to-right scan equals the standard's definition: the substitutions spliced into the matches the global search finds. |
| TextReplace.IndexOf | scripts/create-platform.js:101-115 | The result is -1 or a match at or after the start, and no match lies between the start and the result. |
| TextReplace.Matches | scripts/create-platform.js:101-115 | The global search finds matches in increasing order, each starting at or after the end of the previous one. |
| TextReplace.ScanIsSplice | scripts/create-platform.js:101-115 | From any position, the left-to-right scan equals the collect-then-splice reading of ECMA-262. |
| TextReplace.MatchesAreGreedy | scripts/create-platform.js:101-115 | Every occurrence of the pattern overlaps a match the global search found; none is missed. |
| TextReplace.ReplaceAllWithoutMatch | scripts/create-platform.js:101-115 | Text that does not contain the pattern is returned unchanged. |
| TextReplace.ScanMatchItself | scripts/create-platform.js:101 | Replacing with the template `$&` gives the text back unchanged. |
| TextReplace.PartOfPattern | scripts/create-platform.js:108-110 | Text that contains a pattern contains every part of it. |
| TextReplace.NoLeadChar | scripts/create-platform.js:101-115 | Text without the pattern's first character has no occurrence of the pattern. |
| TextReplace.ReplaceSingle | scripts/create-platform.js:101-115 | With exactly one place where the pattern's first character appears, and the pattern there, the result is the text with the template in its place. |
| Rewrite.Rules | scripts/create-platform.js:99-115 | Eleven rules whose patterns are exactly the chain's patterns, in the chain's order. |
| Rewrite.RewriteText | scripts/create-platform.js:99-115 | A text containing none of the eleven patterns comes out of the chain unchanged. |
| Rewrite.ApplyRules | scripts/create-platform.js:99-115 | Applying rules one after another leaves a text unchanged when none of their patterns occurs in it. |
| Rewrite.Stage | scripts/create-platform.js:99-115 | After all eleven steps, the stage is the text copyFile writes. |
| Rewrite.StageStep | scripts/create-platform.js:99-115 | Step k+1 of the chain is the global replacement of pattern k applied to the output of the first k steps. |
| Rewrite.ManchInLaterPatterns | scripts/create-platform.js:108-115 | The patterns of steps 6, 7, 8 and 11 each contain `manch`. |
| Rewrite.StorageStepsInert | scripts/create-platform.js:108-110 | Steps 6 to 8 change nothing when no `manch` is left after step 5. |
| Rewrite.PackageStepInert | scripts/create-platform.js:115 | Step 11 changes nothing when no `manch` is left after step 10. |
| RewriteExample.NameStepsInert | scripts/create-platform.js:101-103 | Steps 1 to 3 leave a text with no `M` or `m` unchanged. |
| RewriteExample.AddaStages | scripts/create-platform.js:99-115 | With `Adda 3100 3102 teal cyan`, a line of the form `a 3000 b manch c` (no other candidate characters, no `purple-` produced) becomes `a 3100 b adda c`. |
| RewriteExample.AddaExample | scripts/create-platform.js:99-115 | With the values of the usage example on line 10, `const port = 3000; // manch_token` becomes `const port = 3100; // adda_token`. |
| RewriteExample.BackendPortRewrittenAgain | scripts/create-platform.js:105-106 | With backend port `3002`, a single `3000` in a text with no other `3`, `M` or `m` ends up as the frontend port, because step 5 rewrites what step 4 wrote. |
| RewriteExample.ReplacementReformsPattern | scripts/create-platform.js:101 | With the name `Man`, step 1 turns `Manchch` into `Manch`: one pass can leave the pattern in its output. |
| RewriteExample.DollarNameKeepsMatch | scripts/create-platform.js:101 | A platform name of `$&` makes step 1 a no-op, since the value is expanded as a template. |
| FileTree.Find | scripts/create-platform.js:65-69 | No entry exactly when no listed name matches; a found node is the node of an entry with that name. |
| FileTree.FindReplace | scripts/create-platform.js:137-168 | After replacing the node of an existing name, that name finds the new node and every other name finds what it found before. |
| FileTree.WriteFile | scripts/create-platform.js:137-168 | A successful write keeps every existing entry's name of the top directory in its place, and adds at most one entry; the node under the written name may change. |
| FileTree.WriteFileSucceeds | scripts/create-platform.js:137-168 | A write succeeds exactly when the parent path is a directory and the target is not a directory. |
| FileTree.WriteFileWrites | scripts/create-platform.js:137-168 | After a successful write, the path holds a text file with the written content. |
| FileTree.WriteFileFrame | scripts/create-platform.js:137-168 | A write leaves every path other than the target and the directories leading to it reading as before. |
| Copy.ExtName | scripts/create-platform.js:86 | The extension is empty exactly when there is no dot after the first character or the name is `..`; otherwise it is a suffix of the name that starts with its only dot. |
| Copy.ExtNameExamples | scripts/create-platform.js:86 | `.env` has no extension; `manch.db-journal` has `.db-journal`, `logo.png` has `.png` and `.env.example` has `.example`. |
| Copy.CopyFile | scripts/create-platform.js:85-122 | A file with a binary extension, or one that cannot be read as text, is copied byte for byte; any other file holds the rewritten text. |
| Copy.CopyNode | scripts/create-platform.js:60-82 | A copied directory is a directory and a copied file is a file. |
| Copy.CopyEntries | scripts/create-platform.js:60-82 | A copied directory has no more entries than the source, and none of them has a skipped name. |
| Copy.CopyDirectory | scripts/create-platform.js:60-82 | The loop over the listing builds exactly `CopyEntries`: skipped names left out, sub-directories copied recursively, files through CopyFile, in listing order. |
| Copy.FindCopy | scripts/create-platform.js:67-80 | A name is in the copied directory exactly when it is in the source and not skipped, and then it holds the copy of the source node. |
| Copy.LookupCopy | scripts/create-platform.js:60-82 | A path through a skipped name, or missing in the source, is missing in the copy; any other path holds the copy of the source node. |
| Copy.CopyOmitsSkipped | scripts/create-platform.js:72-74 | Nothing below a skipped name appears in the copy. |
| Copy.CopyKeepsShape | scripts/create-platform.js:60-82 | Every path not through a skipped name exists in the copy exactly when it exists in the source, and is a directory in one exactly when it is in the other. |
| Copy.CopyFileContents | scripts/create-platform.js:76-121 | A copied file keeps its bytes when its extension is binary or it is not readable as text; otherwise it holds the rewritten text. |
| Copy.CopyNames | scripts/create-platform.js:67-74 | Every name in a copied directory is a non-skipped name of the source directory. |
| Copy.CopyPreservesWellFormed | scripts/create-platform.js:60-82 | Copying keeps every directory's names valid and distinct. |
| EnvFiles.JoinLines | scripts/create-platform.js:142-162 | Joined lines end with a newline. |
| EnvFiles.LineEnd | scripts/create-platform.js:142-162 | The first newline is at the returned index, or there is none; no newline comes before it. |
| EnvFiles.SplitLinesNoNewline | scripts/create-platform.js:142-162 | No line produced by splitting contains a newline. |
| EnvFiles.SplitJoin | scripts/create-platform.js:142-162 | Lines without newlines, joined and split again, come back unchanged. |
| EnvFiles.JoinSplit | scripts/create-platform.js:142-162 | A newline-terminated text, split and joined again, comes back unchanged. |
| EnvFiles.EnvValue | scripts/create-platform.js:142-162 | A value found for a key comes from a `key=value` line of the file. |
| EnvFiles.Gitignore | scripts/create-platform.js:130-137 | The `.gitignore` reads back as exactly the six ignore patterns, in order. |
| EnvFiles.BackendEnvLines | scripts/create-platform.js:142-162 | The backend template has twenty lines, none of which holds a line break when the values hold none. |
| EnvFiles.BackendEnv | scripts/create-platform.js:142-163 | For values without line breaks, the backend file reads back as its twenty template lines. |
| EnvFiles.BackendEnvPort | scripts/create-platform.js:143 | The backend template's lines set `PORT` to the backend port. |
| EnvFiles.BackendEnvDatabase | scripts/create-platform.js:147 | The backend template's lines set `DATABASE_PATH` to `./<lower-case name>.db`. |
| EnvFiles.BackendEnvCallbackUrl | scripts/create-platform.js:155 | The backend template's lines set `GOOGLE_CALLBACK_URL` to the backend's `/api/auth/google/callback` route. |
| EnvFiles.BackendEnvFrontendUrl | scripts/create-platform.js:158 | The backend template's lines point `FRONTEND_URL` at the frontend port. |
| EnvFiles.BackendEnvIssuer | scripts/create-platform.js:161 | The backend template's lines set `OAUTH_ISSUER` to the backend's own address. |
| EnvFiles.BackendEnvFileValues | scripts/create-platform.js:142-163 | For values without line breaks, the written backend file, split back into lines, sets `PORT`, `DATABASE_PATH`, `GOOGLE_CALLBACK_URL`, `FRONTEND_URL` and `OAUTH_ISSUER` to those same values. |
| EnvFiles.FrontendEnvValue | scripts/create-platform.js:166-167 | For a backend port without a line break, the frontend file, read back, sets `NEXT_PUBLIC_API_URL` to the backend's address. |
| EnvFiles.FrontendEnv | scripts/create-platform.js:166-167 | The frontend file is the single line `NEXT_PUBLIC_API_URL=http://localhost:<backend port>` and its newline. |
| Scaffold.ExitCode | scripts/create-platform.js:185-187 | The exit status is 0 exactly when the platform was created, and 1 otherwise, as on every error path (lines 11, 32, 38 and 187). |
| Scaffold.ReadyOfCopy | scripts/create-platform.js:163-168 | The copy has `backend` and `frontend` directories, and no directory in place of a generated file, exactly when the template does. |
| Scaffold.GitignoreStep | scripts/create-platform.js:130-137 | Writing `.gitignore` fails exactly when a directory has that name; after it, the file holds the ignore list and the other targets and their directories read as before. |
| Scaffold.BackendStep | scripts/create-platform.js:142-163 | Writing `backend/.env.example` succeeds exactly when `backend` is a directory and the target is not; after it, the file holds the backend template and the other targets read as before. |
| Scaffold.FrontendStep | scripts/create-platform.js:166-168 | Writing `frontend/.env.example` succeeds exactly when `frontend` is a directory and the target is not; after it, the file holds the frontend line and the other two targets read as before. |
| Scaffold.ThreeWritesFrame | scripts/create-platform.js:137-168 | When all three writes succeed, every path that is neither a generated file nor a directory on the way to one reads as in the copy. |
| Scaffold.CreatePlatform | scripts/create-platform.js:7-188 | The outcome is decided as follows: a usage error exactly when there are too few values; a missing source exactly when the template is absent; an existing target exactly when the target exists. Creation succeeds exactly when the template is a directory ready for the three writes. A created platform holds the three generated files with their contents, and every path that is neither a generated file nor a directory on the way to one reads as in the copy of the template. |

## Left out

- Real file-system I/O. The template is given as a tree value, and whether the target exists is a flag. `__dirname` and `path.join` are not part of this model, so a platform name containing `/` or `..` cannot place the target elsewhere.
- The console output, meaning the banner, the error messages and the next-steps list, is not modelled.
- Text decoding. A file is its content plus whether a text read succeeds. UTF-8 decoding and the byte-level copy are not modelled. Node's `readFileSync(src, 'utf8')` does not throw on invalid UTF-8; it puts U+FFFD in place of the bad bytes. So a failed text read (`isText` false) stands for a read that fails for another reason, such as a file too large for a string. A binary file whose extension is not in the list (`.webp`, or `.PNG` in upper case) is therefore rewritten lossily by the script, not copied byte for byte; the model does not capture that loss.
- Arguments.LowerCase: maps only ASCII letters, whereas JavaScript's `toLowerCase` also maps other Unicode letters.
- Arguments.UpperCase: maps only ASCII letters, whereas JavaScript's `toUpperCase` also maps, and can lengthen, other Unicode letters.
- The `$n` and `$<name>` replacement patterns are treated as literal text. The patterns have no capture groups, so JavaScript keeps those sequences as written too.
- Symbolic links and other special entries are modelled as files. A listing is kept in the order it was read, and nothing about that order is assumed. A symbolic link to a directory in fact ends the whole run: `readFileSync` throws EISDIR, the fallback `copyFileSync` at line 120 throws too, and the error reaches the catch at line 185. The model copies such an entry as a file.
- I/O errors in the middle of a copy, such as a failing `copyFileSync` or a missing permission, are not modelled. They end the run through the top-level catch with a partly written target, which is never rolled back.
- Scaffold.CreatePlatform: on the aborted paths it does not state what the partly written target holds. It only states that the outcome is not Created.
- Values with line breaks in the generated files: a port or name holding a line break splits its template line in two, so the written file no longer reads back as the twenty template lines and a key may read back with a shortened value. The read-back lemmas (`BackendEnv`, `BackendEnvFileValues`, `FrontendEnvValue`) state nothing for such values.
- EnvFiles.EnvValue: a simplified dotenv reader that takes the first `key=value` line starting with the key. Quoting, `export` prefixes and comments after values are not modelled.
- The colour values are used only in the rewrite chain, so nothing else is modelled for them.
