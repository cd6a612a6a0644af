# Trivia server core, modelled in Dafny

This project models the core of a small networked trivia game. It covers two parts.

**The wire protocol.** The codec is `chatlib.py`. A frame is a 16-character command field padded with spaces, then `|`, then a 4-digit length field, then `|`, then the payload. The codec builds and parses frames. It also splits `#`-separated payload fields and joins them back.

**The server's game logic.** This is `server_skeleton.py`. The server keeps four pieces of shared state:

- the user records;
- the question bank;
- the table of logged-in users, from user name to connection;
- the outbound message queue.

It routes every client command to a handler that updates this state and queues a reply.

Modules:

- `Wrappers`: `Option` and `Result`.
- `Strings`: the Python string builtins the sources rely on. These are `count`, `split`, `replace(" ", "")`, slicing with a negative stop, `str(int)`, `int(str)` and `isnumeric`. The module also has the accumulate-then-trim idiom the sources use to join fields.
- `ChatLib`: the protocol constants, `build_message`, `parse_message` (as written, plus a corrected version), `split_data` and `join_data`.
- `OrderedDict`: a Python `dict`. It is a map plus the order its keys were inserted in, because the server's replies depend on iteration order.
- `Ranking`: the stable descending sort behind the high-score table.
- `Server`: the server state as the class `GameState`, with one method per handler. Each handler updates the fields in place. A reply is queued by appending it to the `outbox` sequence. Python exceptions that a handler raises become a returned `Status`. Every such exception is raised before the handler changes any state.
- `Scenarios`: two concrete runs of the handlers. They show that situations the lemmas describe can actually happen.

Where the code and the protocol's intended behaviour disagree, the model follows the code:

- **Which command marks a question as asked.** The protocol intends that `GET_QUESTION` called N times gives N distinct questions. In the code, `GET_QUESTION` marks nothing as asked; only `SEND_ANSWER` does (server_skeleton.py:276). `HandleQuestionMessage` therefore leaves `users` unchanged.
- **Asked questions form a list, not a set.** The protocol treats the asked ids as a set. The code keeps a list, so answering the same question twice records its id twice. See the findings below.
- **The index check in `parse_message` short-circuits.** It reads `data[21]` only when `data[16]` is not `|`. The check at chatlib.py:76 therefore raises `IndexError` (`IndexOutOfRange`) in two cases:
  - frames of length 1 to 16;
  - frames of length 17 to 21 whose position 16 is not `|`.

  A frame that passes this check can still raise `IndexError` later, at chatlib.py:80 or :83, when the text holds fewer than two `|` (see `ParseFields`).

## Model

| member | source | states |
|---|---|---|
| `ChatLib.LengthField` | chatlib.py:49-57 | The length field has exactly four characters. They are decimal digits whose value is the payload length. |
| `ChatLib.BuildMessage` | chatlib.py:35-61 | The result is `None` exactly when the command is longer than 16 or the payload longer than 9999. Otherwise the frame has this layout: the command, space padding to 16, the delimiter, digits whose value is the payload length, the delimiter, the payload. Its total length is at most `MAX_MSG_LENGTH`. |
| `ChatLib.ParseFields` | chatlib.py:78-88 | A successful parse yields a command without spaces, at most 16 long, and a payload without the delimiter, at most 9999 long. An `IndexError` is possible only when the text has fewer than two delimiters. |
| `ChatLib.ParseMessage` | chatlib.py:64-88 | The empty frame gives `(None, None)`. Frames of length 1 to 16 raise `IndexError`. So do frames of length 17 to 21 whose position 16 is not the delimiter. When position 16 is not the delimiter but position 21 is, the frame is rejected. A successful parse meets the same bounds as `ParseFields`. |
| `ChatLib.ParseOfHeader` | chatlib.py:76-88 | For a frame with `|` at positions 16 and 21 and no other `|` among its first 22 characters, the parse is determined as follows. The length field must be numeric once spaces are removed, or the frame is rejected. Its value is never compared with the payload. The payload returned is the text up to the next delimiter, which is accepted when at most 9999 long. |
| `ChatLib.FieldsOfPlainFrame` | chatlib.py:78-88 | A command, a numeric length and a text joined by the delimiter parses to exactly `(cmd, text)`. This holds when all three are within their limits: a command of at most 16 characters, a length of at most 4 digits, and a text of at most 9999 characters. The text must hold no delimiter, and the command no space or delimiter. |
| `ChatLib.ParseRejectsBadLengthField` | chatlib.py:80-82 | A frame with `|` at positions 16 and 21 and no other `|` among its first 22 characters is rejected when its length field is not numeric. |
| `ChatLib.RoundTrip` | chatlib.py:35-88 | Building a frame succeeds for a command without spaces or delimiters and a payload without delimiters, both within their limits. Parsing that frame gives back the same command and payload. |
| `ChatLib.PaddedCommand` | chatlib.py:48 | For a command of at most 16 characters without spaces or `|`, the padded command field contains no delimiter, and removing its spaces restores the command. |
| `ChatLib.LengthFieldIsPlain` | chatlib.py:49-57 | The length field contains no delimiter and no spaces. |
| `ChatLib.ParseFrame` | chatlib.py:76-77 | The corrected parser never raises. It accepts only complete headers with the delimiter at positions 16 and 21. On such headers it agrees with `parse_message`. |
| `ChatLib.PrecedenceAcceptsMisplacedDelimiters` | chatlib.py:76-77 | Take a 22-character frame: a character `c` that is neither a space nor the delimiter, the delimiter, a digit, the delimiter, then 18 characters that are not the delimiter. Neither position 16 nor position 21 holds the delimiter. The check as written accepts it as `(c, text)`. The corrected parser rejects it. |
| `ChatLib.SplitData` | chatlib.py:91-106 | The result has fields exactly when `#` occurs `expected_fields` times. Then there are `expected_fields + 1` fields, none containing `#`, and joining them with `#` gives the message back. |
| `ChatLib.JoinData` | chatlib.py:109-121 | The loop's result is the fields joined by `#` with no trailing separator. It equals the accumulated `field#` text minus its last character. |
| `ChatLib.SplitDataJoin` | chatlib.py:91-121 | For a non-empty list of fields, none containing `#`, `split_data(join_data(fields), len(fields) - 1)` gives the fields back. (For the empty list, `join_data` gives `""`, which no split returns as `[]`.) |
| `Strings.Count` | chatlib.py:103 | The count is at most the length. It is zero exactly when the character is absent. |
| `Strings.Split` | chatlib.py:104 | The number of pieces is one more than the number of delimiters. No piece contains the delimiter. |
| `Strings.SplitJoin` | chatlib.py:104 | Splitting the join of a non-empty list of delimiter-free fields restores the fields. |
| `Strings.JoinSplit` | chatlib.py:104 | Joining the pieces of a split restores the string. |
| `Strings.CountJoin` | chatlib.py:103 | Joining n delimiter-free fields puts exactly n - 1 delimiters in the text. |
| `Strings.TerminatedIsJoin` | chatlib.py:118-121 | The `field#` accumulation is the join followed by one separator. |
| `Strings.SliceTo` | chatlib.py:121 | A slice `s[0:stop]` is a prefix of `s`. |
| `Strings.TrimTerminated` | server_skeleton.py:204-206 | Cutting the last separator off the accumulated `field#` text (`[0:-1]`, `[0:-2]`) gives the join. This holds for an empty list too. |
| `Strings.RemoveSpaces` | chatlib.py:79-80 | `replace(" ", "")` leaves no space and never lengthens the text. |
| `Strings.RemoveSpacesKeeps` | chatlib.py:79-80 | Text without spaces is unchanged. |
| `Strings.IsNumeric` | chatlib.py:81 | `isnumeric` holds only of non-empty digit strings, so a numeric length field holds no space and no sign. |
| `Strings.NatToStringValue` | chatlib.py:51-57 | The digits of `str(n)` read back as `n`. |
| `Strings.NatToStringLength` | chatlib.py:50-57 | `str(n)` has 1, 2, 3 or 4 digits in the ranges `build_message` distinguishes. |
| `Strings.LeadingZeros` | chatlib.py:51-55 | Padding with zeros keeps the value of the length field. |
| `Strings.NatToString` | chatlib.py:51-57 | `str(n)` is a non-empty digit string without a leading zero; `NatToStringValue` proves it reads back as `n`. |
| `Strings.IntToString` | server_skeleton.py:207 | `str(i)` is a digit string, preceded by `-` for a negative `i`; `ParseIntOfIntToString` proves `int` reads it back as `i`. It is also used at :251 and :290. |
| `Strings.ParseInt` | server_skeleton.py:267 | `int` succeeds only on non-empty text. |
| `Strings.ParseIntOfIntToString` | server_skeleton.py:207 | `int(str(i)) == i` for every integer. Question ids sent with `str` are therefore read back by `int`. |
| `OrderedDict.Dict.Put` | server_skeleton.py:346 | After `d[k] = v`, the map is updated and the dict stays well formed. A new key goes last; an existing key keeps its place. |
| `OrderedDict.Dict.Remove` | server_skeleton.py:320 | `del d[k]` removes exactly `k`. The other keys keep their order. |
| `OrderedDict.KeyOf` | server_skeleton.py:27-34 | Returns `None` exactly when no key has the value. Otherwise it returns a key holding the value, and it is the first such key in insertion order. |
| `Ranking.RankByScore` | server_skeleton.py:287 | The ranking has as many names as the input, and every name has a score. |
| `Ranking.RankDescending` | server_skeleton.py:287 | The ranking is ordered by score, highest first. |
| `Ranking.RankPermutation` | server_skeleton.py:287 | The ranking is a permutation of the users. |
| `Ranking.RankStable` | server_skeleton.py:287 | Users with equal scores keep their dict order, as Python's stable `sorted` does. |
| `Ranking.Top` | server_skeleton.py:288-293 | The table lists min(n, number of users) names. |
| `Ranking.TopIsBest` | server_skeleton.py:287-293 | The first n names of the ranking descend by score. No name left out scores more than a listed one. |
| `Server.ReadAnswer` | server_skeleton.py:266-270 | A read answer names a question of the bank. The failures are: `TypeError` for a wrong number of `#`, `ValueError` for a non-integer id, `KeyError` for an unknown id. |
| `Server.ReadAnswerOfClientData` | server_skeleton.py:266-270 | The data the client sends for an answer, `str(question_id) + "#" + choice` (client.py:176), is read back as that id and that choice when the choice holds no `#`. |
| `Server.ClientReadsQuestion` | client.py:165 | The payload built at server_skeleton.py:204-207 for a four-answer question without `#` in its fields is split by the client's `split_data(payload, 5)` into exactly the id, the text and the four answers. |
| `Server.IntToStringHasNoDelimiters` | server_skeleton.py:207 | A question id as text contains neither `#` nor the frame delimiter. |
| `Server.QuestionPayload` | server_skeleton.py:204-207 | The `YOUR_QUESTION` payload starts with the question id and a `#`; `ClientReadsQuestion` proves the client splits it back into id, text and answers. |
| `Server.RecordQuestionKeepsAsked` | server_skeleton.py:276 | Recording a bank question for a user keeps every asked id a question of the bank. |
| `Server.GuardAsWritten` | server_skeleton.py:199 | The guard as written, `len(questions) != len(questions_asked)`. It is a definition; `GuardsAgreeWithoutRepeats`, `GuardAsWrittenHangs` and `GuardAsWrittenStopsEarly` state what it means and where it goes wrong. |
| `Server.DistinctSetSize` | server_skeleton.py:199 | An asked list without repeats has as many ids as its set. |
| `Server.GuardsAgreeWithoutRepeats` | server_skeleton.py:199 | If the asked list has no repeats and names only bank questions, the guard as written holds exactly when some question is unasked. |
| `Server.GuardAsWrittenHangs` | server_skeleton.py:199-203 | Take a one-question bank whose question was answered twice. The guard as written still lets the retry loop start, although no question is unasked. |
| `Server.GuardAsWrittenStopsEarly` | server_skeleton.py:199-209 | Take a two-question bank where one question was answered twice. The guard as written reports no question left, although one is unasked. |
| `Server.ScoreTableAppend` | server_skeleton.py:290 | Each loop step adds one `"\n" + name + ": " + score` line for the next name. |
| `Server.ScoreTable` | server_skeleton.py:289-293 | The table text is empty exactly when no user is listed; `ScoreTableAppend` gives the line each loop step adds. |
| `Server.TopScorers` | server_skeleton.py:287-293 | The users the table lists: min(5, number of users) of them, all registered; `TopScorersAreBest` proves they are the best, in order. |
| `Server.TopScorersAreBest` | server_skeleton.py:279-294 | The high-score table lists min(5, number of users) users, all of them registered. Ranked by the sort key of :287, each user's score, the table descends, and no unlisted user scores more than a listed one. |
| `Server.LoginAcceptedIff` | server_skeleton.py:338-350 | For a user name and a password without `#`, the credentials as the client sends them, `username + "#" + password` (client.py:75), are accepted exactly when three things hold: the user exists, holds no session, and the password matches. |
| `Server.DelimitedPasswordNeverAccepted` | server_skeleton.py:338-350 | No login is ever accepted for a user whose stored password contains `#`: the data would hold two `#`, so `split_data` at :338 returns `[None]` and :340 raises `IndexError`. |
| `Server.LoginAcceptedReadsCredentials` | server_skeleton.py:338-346 | An accepted login names a registered user without a session. Its data is exactly `user#password` with that user's password. |
| `Server.Login` | server_skeleton.py:338-350 | The login decision: `IndexError` exactly when the data does not hold exactly one `#`; otherwise a refusal with one of the three error texts, or acceptance of a registered user without a session. `LoginAcceptedIff` gives the acceptance condition. |
| `Server.LoginRefusals` | server_skeleton.py:341-350 | For `user#password` with `#`-free fields, the checks run in the source's order, and each refusal gets its own text. An unknown user gets `UNKNOWN_USER`. A registered user who already holds a session gets `ALREADY_LOGGED_IN`, whatever the password. A registered user without a session who gives a wrong password gets `WRONG_PASSWORD`. |
| `Server.GetKeyByValue` | server_skeleton.py:27-34 | The loop returns the first key, in insertion order, whose value is the target. It returns `None` exactly when no key has that value. |
| `Server.PutFreshValueKeepsInjective` | server_skeleton.py:346 | Adding a session for a connection that holds none keeps at most one user per connection. |
| `Server.RemoveKeyOfValue` | server_skeleton.py:319-320 | With one user per connection, deleting the key found for a connection removes that connection entirely. |
| `Server.GameState.constructor` | server_skeleton.py:14-18 | The state starts with the loaded users and questions, no sessions and an empty queue. It is well formed and has one user per connection. |
| `Server.GameState.BuildAndSendMessage` | server_skeleton.py:39-55 | Exactly one entry is queued, after everything already queued: the addressee and the built frame, or `None` when building failed. |
| `Server.GameState.SendError` | server_skeleton.py:212-221 | Exactly one `ERROR` frame carrying the message is queued. |
| `Server.GameState.CreateRandomQuestion` | server_skeleton.py:190-209 | The result is `""` exactly when every bank question has been asked of the user. Otherwise it is `id#text#answers` for some question not yet asked. |
| `Server.GameState.HandleQuestionMessage` | server_skeleton.py:226-238 | Queues `YOUR_QUESTION` with an unasked question's payload when one exists, otherwise an empty `NO_QUESTIONS`. Nothing else changes. |
| `Server.GameState.HandleGetscoreMessage` | server_skeleton.py:241-251 | Queues `YOUR_SCORE` with the user's score as text. |
| `Server.GameState.HandleAnswerMessage` | server_skeleton.py:254-276 | Each unreadable answer raises its exception and changes nothing. A readable answer changes only this user's record: five more points for a matching choice, and the id appended either way. It queues `CORRECT_ANSWER`, or `WRONG_ANSWER` with the right index. The state stays well formed. |
| `Server.GameState.RecordAnswer` | server_skeleton.py:270-276 | For a known question: one reply queued, the reward added exactly when the choice matches, and the id appended to the asked list. |
| `Server.GameState.HandleHighscoreMessage` | server_skeleton.py:279-294 | The loop queues `ALL_SCORE` with the score lines of exactly the first five users of the stable ranking. |
| `Server.GameState.HandleLoggedMessage` | server_skeleton.py:297-308 | Queues `LOGGED_ANSWER` with the logged-in names in login order, joined by `", "`. With nobody logged in, the text is empty. |
| `Server.GameState.HandleLogoutMessage` | server_skeleton.py:311-320 | Deletes the session of the first user, in login order, logged in on this connection. With one user per connection, the connection then holds no session. |
| `Server.GameState.HandleLoginMessage` | server_skeleton.py:325-350 | Malformed data raises `IndexError` and changes nothing. The refusals are checked in order: unknown user, then already logged in, then wrong password. Each queues its `ERROR` text and changes nothing else. Only success queues `LOGIN_OK` and records the session. |
| `Server.GameState.OpenSession` | server_skeleton.py:344-346 | Queues `LOGIN_OK` and then records the session, keeping one user per connection. |
| `Server.GameState.HandleClientMessage` | server_skeleton.py:353-383 | A connection without a session may only log in: `LOGIN` follows the login decision, and any other command gets `ERROR "Unknown command."` and changes nothing. For a logged-in connection the effect is that of the handler the command names, run for the first user (in login order) holding the connection. `MY_SCORE`, `HIGHSCORE`, `LOGGED` and `GET_QUESTION` each queue their reply. `SEND_ANSWER` updates the score and the asked list, or raises. `LOGOUT` ends the session. Any other command, `LOGIN` included, changes nothing and gets no reply. Only `LOGOUT` ends a session, and only `SEND_ANSWER` changes user records. Every new session comes from a `LOGIN` on this connection that was answered `LOGIN_OK`. The state stays well formed with one user per connection. |
| `Server.GameState.HandleSessionCommand` | server_skeleton.py:368-381 | Looks up the session's user with `get_key_by_value`, then gives, command by command, the reply queued and the state changed (`SessionCommandEffect`). `LOGOUT` removes the session. `MY_SCORE` queues `YOUR_SCORE` with the score. `HIGHSCORE` queues the table of the five best users. `LOGGED` queues the logged-in names joined by `", "`. `GET_QUESTION` queues an unasked question, or `NO_QUESTIONS` when none is left. `SEND_ANSWER` raises on unreadable data; otherwise it scores the answer, records the id and queues `CORRECT_ANSWER` or `WRONG_ANSWER`. Any other command changes nothing. |
| `Scenarios.AnswerTwice` | server_skeleton.py:254-276 | Answering the one question of the bank twice is recorded twice, and both answers score. Afterwards the guard as written holds although no question is unasked. |
| `Scenarios.SecondLoginRefused` | server_skeleton.py:325-350 | A second connection logging in as a user who already holds a session gets `ERROR "Error! The user is already logged in!"`. The first session is kept. |

## Left out

- Sockets, the `select` event loop and `main` are not modelled. The same goes for `recv_message_and_parse`, `setup_socket`, `print_client_sockets`, `conn.close()` and the debug prints. A connection is an opaque handle, and sending a reply means appending it to the queue.
- `load_questions`, `load_questions_from_web` and `load_user_database` are not modelled. They read files and the network. The constructor takes the loaded users and questions as parameters.
- `client.py` is not modelled as a program: its menus, input and blocking socket calls are left out. Three of its steps appear as inputs of lemmas. `ReadAnswerOfClientData` reads the answer data built at client.py:176. `LoginAcceptedIff` reads the credentials built at client.py:75. `ClientReadsQuestion` is its `split_data` call at client.py:165.
- What the event loop does with an exception a handler raises is not modelled. The handler returns `Raised(error)` instead.
- `Server.GameState.CreateRandomQuestion`: `random.choice` is modelled as a choice of any unasked id. So the uniform distribution is not modelled, and neither is the retry loop, which can run forever under the guard as written (see the findings). The method uses the corrected guard.
- `Strings.IsNumeric` accepts only the ASCII digits. Python's `isnumeric` also accepts other Unicode numerals.
- `Strings.ParseInt` does not accept the surrounding whitespace, underscores or non-ASCII digits that Python's `int` accepts.
- `parse_message` starts with `str(data)`. This step is not modelled, because frames are already text.
- `Server.GameState.HandleLogoutMessage` requires the connection to hold a session. Without one, the source raises `KeyError` at `del logged_users[None]` (server_skeleton.py:320). `handle_client_message` calls the handler only for a logged-in connection. But `main` also calls it for any connection: at :423, when a frame parses to `(None, None)`, and at :431, in the `except:` handler. For a connection that never logged in, the `KeyError` at :431 is raised inside the handler itself and ends the server. `main` is not part of this model.
- `Server.GameState.HandleGetscoreMessage`, `HandleQuestionMessage` and `CreateRandomQuestion` require the user to exist. The `KeyError` the source would raise otherwise cannot happen, because every session belongs to a registered user (`GameState.Valid`).
- `Server.GameState.HandleSessionCommand` uses an `else if` chain for the source's consecutive `if`s. The command names are distinct, so the same single handler runs.
- `Server.GameState.RecordAnswer` writes the updated user record once. The source updates the score and then the asked list in place, and the resulting state is the same.
- Scores are kept as integers, so the `int(...)` conversions of the score at server_skeleton.py:273 and :287 are identities.
- The question bank is a `map` without an iteration order. Only the random choice reads it, and that choice ignores order.

## Findings

| source | as written | input that shows it | evidently intended | confidence | as-written member | corrected member |
|---|---|---|---|---|---|---|
| chatlib.py:76 | `not` binds tighter than `and`, so the check reads as (position 16 is not the delimiter) and (position 21 is the delimiter). A frame is rejected only when position 16 is wrong and position 21 is right. | `A`, the delimiter, `5`, the delimiter and 18 letters (22 characters, neither delimiter in place) is accepted as command `A`. | Reject any frame shorter than the header or without the delimiter at positions 16 and 21. | not executed | `ChatLib.ParseMessage`, `ChatLib.PrecedenceAcceptsMisplacedDelimiters` | `ChatLib.ParseFrame` |
| server_skeleton.py:199 | The guard compares the number of questions with the length of the asked list. That list gains an entry on every answer, including repeated answers to the same question. | One question answered twice: the list is `[1, 1]` and the guard holds, so the retry loop never finds an unasked question. Two questions, one of them answered twice: the guard fails, so `NO_QUESTIONS` is sent while question 2 is unasked. | Offer a question exactly when some question of the bank is not yet asked. | not executed | `Server.GuardAsWritten`, `Server.GuardAsWrittenHangs`, `Server.GuardAsWrittenStopsEarly`, `Scenarios.AnswerTwice` | `Server.GameState.CreateRandomQuestion`, `Server.GuardsAgreeWithoutRepeats` |
