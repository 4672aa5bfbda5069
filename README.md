# GraphRAG request orchestration, modelled in Dafny

This project models the request-orchestration layer of the GraphRAG Flask
service (`main.py`): the two HTTP handlers that sit between a client and
the service's external collaborators.

- `POST /upload-ifc` (`upload_ifc`) checks the uploaded file in three steps.
  It then runs a `try` block: create `temp_uploads`, save the file under
  `temp_uploads/temp_<uuid hex>_<filename>`, call `process_ifc_file` on it,
  and remove it. A failed check gives 400, an `Exception` raised in the
  block 500, and completion 200.
- `POST /chat` (`chat`) refuses a blank message with 400. Otherwise it runs
  the chat collaborator's `message` coroutine to completion. It answers 200
  with the reply split into stripped, non-empty lines, or 500 with the
  text of the `Exception` it raised.

Files and modules:

- `text.dfy`, module `Text`: Python's `str.isspace`, `lower`, `endswith`,
  `strip`, `split(sep)` and `join`, over ASCII.
- `http.dfy`, module `Http`: the JSON response bodies and status codes.
- `upload.dfy`, module `Upload`: validation and the temporary path as
  functions. The effects of the `try` block are a pure specification
  (`RunSteps`, `UploadRun`). The filesystem and the record of calls form
  the class `Host`, whose methods `SaveProcessRemove` and `UploadIfc` are
  proved against that specification.
- `chat.dfy`, module `Chat`: the message check, the line reshaping and the
  chat handler, all as functions.

Collaborators and the OS are inputs. A record `Env` says, for each of the
four calls of the `try` block, whether it returns or raises and with which
text. A `Reply` says whether the chat coroutine returned a text or raised.
The uuid token is a parameter.

The filesystem is a set of paths held in `Host.paths`. `Host.log` records
every call made on the outside world, in order. Ingestion is one of those
calls. `process_ifc_file` is assumed not to create or delete files, so it
leaves the paths as they are. A raised exception carries a flag `created`.
It says whether `file.save` had already created the destination when it
failed: it opens the file for writing before it copies into it, so a
failure while copying leaves a truncated file.

Whitespace follows `str.isspace` on ASCII. That is space, `\t`, `\n`,
`\v`, `\f`, `\r`, and also the four separators `\x1c` to `\x1f`, which
Python's `str.strip()` removes too.

The handler does not clean up on failure. `os.remove` (main.py:57) runs
only after `process_ifc_file` has returned. So when ingestion raises, or
when save fails after creating the file, the file stays on disk
(`UploadFails`, `TempFileLeftBehindIff`).

## Model

| member | source | states |
|---|---|---|
| `Upload.Validate` | main.py:35-44 | The checks run in order: field `file` missing gives "No file part in request"; then an empty name gives "No selected file"; then a name not ending in `.ifc` gives "Only .ifc files are allowed". A file is accepted exactly when its last four characters are `.` and i, f, c in either case, so the empty-name check changes only the message. |
| `Upload.IfcExtensionIff` | main.py:43 | `filename.lower().endswith('.ifc')` holds exactly when the name ends in a dot followed by i/I, f/F, c/C. |
| `Upload.ValidationExamples` | main.py:35-44 | `model.IFC` and the bare name `.ifc` are accepted. `model.txt` is rejected as not `.ifc`. An empty name and a missing `file` field each get their own message. |
| `Upload.TempPath` | main.py:49-50 | `os.path.join('temp_uploads', f"temp_{token}_{filename}")` is the string `temp_uploads/temp_` + token + `_` + filename. |
| `Upload.TempPathInjective` | main.py:49-50 | For tokens of equal length, two temporary paths are equal exactly when both the tokens and the file names are equal. |
| `Upload.DistinctTokensDistinctPaths` | main.py:49 | Two different uuid hex tokens (32 lower-case hex digits) never give the same temporary path, whatever the file names. |
| `Upload.TempPathIsNotTempDir` | main.py:48-50 | A temporary file path is never the temporary directory itself. |
| `Upload.Apply` | main.py:48-57 | The paths after a call that returned: makedirs adds the directory, save adds the file, ingestion changes nothing (an assumption), remove deletes the file. |
| `Upload.ApplyRaised` | main.py:48-57 | The paths after a call that raised: unchanged, except that a save that had already created its file leaves it behind. |
| `Upload.Plan` | main.py:48-57 | The calls of the `try` block in source order: makedirs(`temp_uploads`), save(p), process(p, database), remove(p). |
| `Upload.RunSteps` | main.py:46-62 | A `try` block of calls: each call runs only if all earlier ones returned. The calls made are a prefix of the plan. The block completes exactly when every call returns, and then the paths reflect all of them. Otherwise the last call made is the first that raised, its text is the result, and the paths reflect the calls before it plus whatever the raising call had already created. |
| `Upload.PlanAttempt` | main.py:48-57 | The four cases of the `try` block. A failing makedirs, save, ingestion or remove stops the block at that call. A save that raised after creating the file leaves it behind. Completion means all four calls ran in order and the temporary file is gone. |
| `Upload.RejectedUploadTouchesNothing` | main.py:35-48 | Validation alone decides a 400. On a 400 there are no calls at all: no directory, no file, no ingestion. The paths are unchanged and the body is the check's message. |
| `Upload.UploadSucceeds` | main.py:48-59 | The response is 200 exactly when all four calls return. Then the calls were makedirs(`temp_uploads`), save(p), process(p), remove(p), in that order. The body is "IFC file uploaded and processed successfully". The directory exists, p does not, and no other path changed. |
| `Upload.UploadFails` | main.py:48-62 | An `Exception` (the class `except` catches) in any call gives 500 with that exception's text, and no later call runs. A failed save leaves the temporary file exactly when it had already created it. When ingestion raises, remove is never called and the saved temporary file is still present. |
| `Upload.TempFileLeftBehindIff` | main.py:51-57 | If the temporary path did not exist before, it exists after the request exactly when save raised after creating it, or save returned and then ingestion or removal raised. |
| `Upload.Host.Perform` | main.py:48-57 | One outside call on the host: it is appended to the log, and the paths change as `Apply` says when it returned and as `ApplyRaised` says when it raised. |
| `Upload.Host.MakeDirs` | main.py:48 | `os.makedirs(dir, exist_ok=True)` records the call and changes the paths as `Apply`/`ApplyRaised` say: the directory exists once it returned (an existing one is accepted). |
| `Upload.Host.Save` | main.py:51 | `file.save(path)` records the call and changes the paths as `Apply`/`ApplyRaised` say: the path exists once it returned (overwriting is allowed), and also when it raised after creating the file. |
| `Upload.Host.ProcessIfcFile` | main.py:54 | The ingestion call is recorded with its path and database name. The paths change as `Apply`/`ApplyRaised` say, that is not at all, which is an assumption about `process_ifc_file`. |
| `Upload.Host.Remove` | main.py:57 | `os.remove(path)` records the call and changes the paths as `Apply`/`ApplyRaised` say: the path is gone once it returned. |
| `Upload.Host.constructor` | main.py:48-57 | A host starts with the given paths and no recorded calls. |
| `Upload.SaveProcessRemove` | main.py:48-57 | Performing the `try` block on a host returns the outcome of `RunSteps`. It appends exactly the calls made to the host's log and leaves the host's paths as `RunSteps` says. |
| `Upload.UploadRun` | main.py:34-62 | The meaning of `upload_ifc`: status 200, 400 or 500. A call is made exactly when the file passed validation, and the calls made are the first ones of the plan for its temporary path. The other Upload lemmas and `UploadIfc` are stated against it. |
| `Upload.HasIfcExtension` | main.py:43 | `filename.lower().endswith('.ifc')`; `IfcExtensionIff` gives its character-level meaning. |
| `Upload.PathJoin` | main.py:50 | POSIX `os.path.join` of two components: an absolute second part replaces the first; otherwise a `/` is inserted unless the first part is empty or already ends in `/`. `TempPath` states the result for the handler's arguments. |
| `Upload.IsUuidHex` | main.py:49 | The shape of `uuid.uuid4().hex`: 32 lower-case hexadecimal digits. `DistinctTokensDistinctPaths` relies on it. |
| `Upload.UploadIfc` | main.py:34-62 | The handler on a host returns `UploadRun`'s response. Its log grows by exactly `UploadRun`'s calls and its paths become `UploadRun`'s paths. |
| `Chat.HandleChat` | main.py:66-87 | The response is 400 exactly when `data.get('message', '')` is all whitespace. Then the body is "Empty message" and the collaborator is not asked. Otherwise, when creating or installing the event loop raises, the answer is 500 with its text and the collaborator is not asked either. Otherwise the unstripped message is passed on. A reply text gives 200 with the reshaped lines, and a raised `Exception` gives 500 with its text. |
| `Chat.MessageOf` | main.py:68 | `data.get('message', '')`: the field's value, or the empty string when it is missing. `MissingMessageRejected` uses it. |
| `Chat.RejectedChatIgnoresReply` | main.py:68-71 | A refused message gives the same exchange whatever the collaborator would have answered. |
| `Chat.MissingMessageRejected` | main.py:68-71 | A body without a `message` field is refused as "Empty message" with 400. |
| `Chat.KeepLines` | main.py:79 | The list comprehension keeps no more lines than it has pieces. Every kept line is non-empty and has no whitespace at either end. |
| `Chat.ReplyLines` | main.py:79 | A reply gives at most one line more than it has `'\n'` characters. Every line is non-empty, contains no `'\n'`, and has no whitespace at either end. |
| `Chat.ReplyLinesOfOneLine` | main.py:79 | A reply without a line break gives no lines if it is blank, and otherwise exactly its stripped text. |
| `Chat.ReplyLinesConcat` | main.py:79 | Order is preserved: the lines of `a + "\n" + b` are the lines of `a` followed by those of `b`. With the one-line case this fixes every result. |
| `Chat.ReplyLinesIdempotent` | main.py:79 | Joining the lines with `'\n'` and reshaping again returns the same lines. |
| `Chat.KeepLinesFixed` | main.py:79 | Pieces that are already non-empty and trimmed are kept, all of them, in order. |
| `Chat.ReplyLinesExample` | main.py:79 | The reply `"A\n\nB\n  C  "` becomes `["A", "B", "C"]`. |
| `Text.Lower` | main.py:43 | `str.lower` keeps the length and replaces each upper-case ASCII letter by its lower-case letter. |
| `Text.IsSpace` | main.py:70-79 | `str.isspace` on an ASCII character: space, `\t` to `\r`, and `\x1c` to `\x1f`. |
| `Text.EndsWith` | main.py:43 | `str.endswith` with one suffix: the last characters of the string are the suffix. |
| `Text.Strip` | main.py:70-79 | `str.strip()`: the result has no whitespace at either end and is no longer than the input. `StripOfPadded`, `StripIsSlice` and `StripEmptyIff` pin it down. |
| `Text.StripOfPadded` | main.py:70 | `str.strip` is determined by its meaning: a trimmed string padded with whitespace on both sides strips to itself. |
| `Text.StripIsSlice` | main.py:70 | `s.strip()` is the part of `s` between a run of leading and a run of trailing whitespace. |
| `Text.StripIdempotent` | main.py:79 | Stripping twice is the same as stripping once. |
| `Text.StripEmptyIff` | main.py:70 | `s.strip()` is empty exactly when every character of `s` is whitespace, both directions. |
| `Text.Split` | main.py:79 | `s.split('\n')` gives one more piece than `s` has separators, and no piece contains the separator. |
| `Text.JoinSplit` | main.py:79 | Joining the pieces of a split with the separator gives back the original string. |
| `Text.SplitJoin` | main.py:79 | Splitting a join of a non-empty list of separator-free pieces gives the list back. |
| `Text.SplitConcat` | main.py:79 | Splitting `a + sep + b` gives the pieces of `a` followed by the pieces of `b`. |

## Left out

- Flask routing, CORS, `.env` loading, the configuration defaults and `app.run` (main.py:1-23, 89-91) are framework and configuration, not logic.
- The Neo4j driver and the global `Chatbot` set-up (main.py:26-30) are foreign library calls. The database name reaches the model only as a parameter of `UploadIfc`.
- What `process_ifc_file` and `Chatbot.message` do inside is in modules that are not part of this model. Each is reduced to "returns" or "raises with this text".
- `process_ifc_file` is assumed not to create or delete files. `ifc_to_neo4j` is not part of this model, so the assumption cannot be checked. The ingestion cases of `UploadFails` and `TempFileLeftBehindIff` and the contract of `Host.ProcessIfcFile` rest on it.
- The event loop created per chat request (main.py:75-77) is async runtime machinery. It is collapsed into the `Reply` input. `LoopFailure` stands for a failure of `new_event_loop` or `set_event_loop` (main.py:75-76), before the collaborator is called. `Failure` stands for one during `run_until_complete` (main.py:77), whether it comes from the loop or from the coroutine.
- `uuid.uuid4()` is random, so its token is a parameter. `IsUuidHex` states its shape, and the model does not claim the token is fresh.
- Why an OS call fails is folded into `Env`: permissions, a full disk, a directory missing because the client's filename contains `/`. The file's bytes are not modelled, only whether its path exists.
- Flask's `request.files` is a multi-dict. The model keeps one file per field name, which is what `request.files['file']` returns.
- Exceptions that derive from `BaseException` but not from `Exception` are not modelled. Examples: `asyncio.CancelledError` out of `run_until_complete`, or `KeyboardInterrupt` and `SystemExit` inside `process_ifc_file`. Both handlers catch only `Exception` (main.py:61, 86), so such an exception escapes the handler. The caller then gets no JSON 500, and on upload the temporary file stays on disk. `Outcome.Raised` and `Reply.Failure` stand only for `Exception` subclasses.
- Requests that raise outside a `try` block are handled by Flask, not by this code, and are not modelled. Examples: a JSON body that is not an object, a `message` that is not a string, a file part whose filename is `None`.
- Python's `lower()` and `strip()` outside ASCII are not modelled. `lower()` can change a string's length there, and `strip()` removes more characters. The model maps only `A`-`Z`, and its whitespace set is ASCII only.
- Concurrency between requests is not modelled. Each call of `UploadIfc` is one request on its own. Distinct concurrent uploads stay apart only through distinct tokens (`DistinctTokensDistinctPaths`).
