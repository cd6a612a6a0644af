/**
 * The trivia server's shared state and its command handlers.
 *
 * The source keeps four globals: `users` (name -> password, score, asked
 * question ids), `questions` (id -> text, answers, correct index),
 * `logged_users` (name -> connection) and the outbound queue
 * `messages_to_send`. Here they are the fields of one `GameState` object,
 * and every handler is a method that updates them in place. Sockets are
 * replaced by connection handles, and a reply is "sent" by appending it to
 * the outbound queue.
 */
module Server {
  import opened Wrappers
  import opened Strings
  import opened ChatLib
  import opened OrderedDict
  import Ranking

  /** A client connection, identified by a stable handle. */
  datatype Conn = Conn(handle: nat)

  /** A user record: password, score, and the ids of the questions answered so far. */
  datatype User = User(password: string, score: int, questionsAsked: seq<int>)

  /** A question record; `correct` is the 1-based index of the right answer, as text. */
  datatype Question = Question(text: string, answers: seq<string>, correct: string)

  /** One entry of the outbound queue: the addressee and the built frame (`None` when building failed). */
  datatype Outbound = Outbound(conn: Conn, frame: Option<string>)

  /** The Python exceptions a handler can raise; each is raised before any state changes. */
  datatype PyError = IndexError | TypeError | ValueError | KeyError

  /** How a handler ended: normally, or by raising an exception to the event loop. */
  datatype Status = Completed | Raised(error: PyError)

  /** A submitted answer whose question id has been read and found. */
  datatype Answer = Answer(id: int, choice: string)

  // Reply commands the handlers send
  const YOUR_SCORE: string := "YOUR_SCORE"
  const ALL_SCORE: string := "ALL_SCORE"
  const LOGGED_ANSWER: string := "LOGGED_ANSWER"
  const YOUR_QUESTION: string := "YOUR_QUESTION"
  const NO_QUESTIONS: string := "NO_QUESTIONS"
  const CORRECT_ANSWER: string := "CORRECT_ANSWER"
  const WRONG_ANSWER: string := "WRONG_ANSWER"

  // Texts of the `ERROR` replies
  const UNKNOWN_USER: string := "Error! Username does not exist"
  const ALREADY_LOGGED_IN: string := "Error! The user is already logged in!"
  const WRONG_PASSWORD: string := "Error! Password does not match!"
  const UNKNOWN_COMMAND: string := "Unknown command."

  /** Points for a correct answer. */
  const REWARD: int := 5
  /** Number of users the high-score table lists. */
  const TOP_COUNT: nat := 5

  // ---------------------------------------------------------------------
  // Questions
  // ---------------------------------------------------------------------

  /** Every asked id names a question of the bank. */
  predicate AskedAreQuestions(asked: seq<int>, questions: map<int, Question>)
  {
    forall i :: 0 <= i < |asked| ==> asked[i] in questions
  }

  /** Every user's asked ids name questions of the bank. */
  predicate AllAskedAreQuestions(users: map<string, User>, questions: map<int, Question>)
  {
    forall u :: u in users ==> AskedAreQuestions(users[u].questionsAsked, questions)
  }

  /** Recording one more question of the bank for a user keeps every asked id a question. */
  lemma RecordQuestionKeepsAsked(users: map<string, User>, name: string, id: int, questions: map<int, Question>)
    requires AllAskedAreQuestions(users, questions) && name in users && id in questions
    ensures
      var user := users[name];
      AllAskedAreQuestions(users[name := user.(questionsAsked := user.questionsAsked + [id])], questions)
  {
  }

  /** Some question of the bank is not among the asked ids. */
  predicate HasUnasked(questions: map<int, Question>, asked: seq<int>)
  {
    exists id :: id in questions && id !in asked
  }

  /**
   * The guard of `create_random_question` as written: the number of
   * questions differs from the length of the asked list.
   */
  predicate GuardAsWritten(questions: map<int, Question>, asked: seq<int>)
  {
    |questions| != |asked|
  }

  /** The `YOUR_QUESTION` payload `id#question#answer1#...#answerN`. */
  function QuestionPayload(id: int, q: Question): (r: string)
    ensures |r| > |IntToString(id)| && r[..|IntToString(id)|] == IntToString(id) && r[|IntToString(id)|] == DATA_DELIMITER
  {
    IntToString(id) + [DATA_DELIMITER] + q.text + [DATA_DELIMITER] + Join(q.answers, [DATA_DELIMITER])
  }

  lemma IntToStringHasNoDelimiters(i: int)
    ensures DATA_DELIMITER !in IntToString(i) && DELIMITER !in IntToString(i)
  {
    var digits := NatToString(if i < 0 then -i else i);
    assert forall k :: 0 <= k < |digits| ==> IsDigit(digits[k]);
    if i < 0 {
      assert IntToString(i) == ['-'] + digits;
    }
  }

  /**
   * A four-answer question whose fields hold no `#` reaches the client
   * intact: its `split_data(payload, 5)` gives back id, text and answers.
   */
  lemma ClientReadsQuestion(id: int, q: Question)
    requires |q.answers| == 4
    requires DATA_DELIMITER !in q.text
    requires forall i :: 0 <= i < 4 ==> DATA_DELIMITER !in q.answers[i]
    ensures SplitData(QuestionPayload(id, q), 5) == Some([IntToString(id), q.text] + q.answers)
  {
    var fields := [IntToString(id), q.text] + q.answers;
    assert fields[1..] == [q.text] + q.answers;
    assert fields[1..][1..] == q.answers;
    assert Join(fields, [DATA_DELIMITER]) == QuestionPayload(id, q);
    IntToStringHasNoDelimiters(id);
    SplitDataJoin(fields);
  }

  /** Reading `id#choice` the way `handle_answer_message` does, with the exception each failure raises. */
  function ReadAnswer(data: string, questions: map<int, Question>): (r: Result<Answer, PyError>)
    ensures r.Success? ==> r.value.id in questions
  {
    match SplitData(data, 1)
    case None => Failure(TypeError)
    case Some(fields) =>
      match ParseInt(fields[0])
      case None => Failure(ValueError)
      case Some(id) => if id in questions then Success(Answer(id, fields[1])) else Failure(KeyError)
  }

  /** The client's `str(question_id) + "#" + choice` is read back as that id and choice. */
  lemma ReadAnswerOfClientData(id: int, choice: string, questions: map<int, Question>)
    requires id in questions && DATA_DELIMITER !in choice
    ensures ReadAnswer(IntToString(id) + [DATA_DELIMITER] + choice, questions) == Success(Answer(id, choice))
  {
    IntToStringHasNoDelimiters(id);
    JoinPair(IntToString(id), choice);
    SplitDataJoin([IntToString(id), choice]);
    ParseIntOfIntToString(id);
  }

  /** Two fields joined by `#` are the first, `#`, then the second. */
  lemma JoinPair(a: string, b: string)
    ensures Join([a, b], [DATA_DELIMITER]) == a + [DATA_DELIMITER] + b
  {
    assert [a, b][1..] == [b];
  }

  lemma {:induction false} DistinctSetSize(s: seq<int>)
    requires Distinct(s)
    ensures |set x | x in s| == |s|
  {
    if s != [] {
      DistinctSetSize(s[1..]);
      assert (set x | x in s) == {s[0]} + (set x | x in s[1..]);
    }
  }

  /** Without repeated ids in the asked list, the guard as written means what it was meant to. */
  lemma GuardsAgreeWithoutRepeats(questions: map<int, Question>, asked: seq<int>)
    requires Distinct(asked) && AskedAreQuestions(asked, questions)
    ensures GuardAsWritten(questions, asked) <==> HasUnasked(questions, asked)
  {
    var seen := set x | x in asked;
    DistinctSetSize(asked);
    assert seen <= questions.Keys;
    if HasUnasked(questions, asked) {
      var id :| id in questions && id !in asked;
      var rest := questions.Keys - seen;
      assert id in rest;
      assert questions.Keys == seen + rest && seen * rest == {};
    } else {
      forall id | id in questions ensures id in seen {
        assert id in asked;
      }
      assert seen == questions.Keys;
    }
  }

  /**
   * A question answered twice leaves the asked list longer than the bank:
   * the guard as written still reports a question left, so the retry loop
   * can never pick an unasked one.
   */
  lemma GuardAsWrittenHangs(q: Question)
    ensures GuardAsWritten(map[1 := q], [1, 1])
    ensures !HasUnasked(map[1 := q], [1, 1])
  {
    assert map[1 := q].Keys == {1};
  }

  /** With a repeated id the guard as written gives up while a question is still unasked. */
  lemma GuardAsWrittenStopsEarly(q1: Question, q2: Question)
    ensures !GuardAsWritten(map[1 := q1, 2 := q2], [1, 1])
    ensures HasUnasked(map[1 := q1, 2 := q2], [1, 1])
  {
    assert map[1 := q1, 2 := q2].Keys == {1, 2};
    assert 2 !in [1, 1];
  }

  // ---------------------------------------------------------------------
  // High scores
  // ---------------------------------------------------------------------

  /** Each user's score, the key the high-score table sorts by. */
  function Scores(users: Dict<string, User>): map<string, int>
  {
    map u | u in users.items :: users.items[u].score
  }

  /** The users the high-score table lists: the first five of the stable ranking by score. */
  function TopScorers(users: Dict<string, User>): (r: seq<string>)
    requires users.Valid()
    ensures |r| == if |users.keys| < TOP_COUNT then |users.keys| else TOP_COUNT
    ensures forall i :: 0 <= i < |r| ==> r[i] in users.items
  {
    Ranking.Top(users.keys, Scores(users), TOP_COUNT)
  }

  /** One `"\n" + name + ": " + score` line per name, in order. */
  function ScoreTable(names: seq<string>, users: map<string, User>): (r: string)
    requires forall i :: 0 <= i < |names| ==> names[i] in users
    ensures r == "" <==> names == []
  {
    if names == [] then ""
    else
      var name := names[|names| - 1];
      ScoreTable(names[..|names| - 1], users) + "\n" + name + ": " + IntToString(users[name].score)
  }

  lemma ScoreTableAppend(names: seq<string>, i: nat, users: map<string, User>)
    requires i < |names| && forall k :: 0 <= k < |names| ==> names[k] in users
    ensures ScoreTable(names[..i + 1], users)
         == ScoreTable(names[..i], users) + "\n" + names[i] + ": " + IntToString(users[names[i]].score)
  {
    assert names[..i + 1][..i] == names[..i];
  }

  /**
   * The table lists min(5, number of users) users, best first, and no user
   * left out scores more than any user listed.
   */
  lemma TopScorersAreBest(users: Dict<string, User>)
    requires users.Valid()
    ensures
      var top := TopScorers(users);
      && |top| == (if |users.keys| < TOP_COUNT then |users.keys| else TOP_COUNT)
      && (forall i :: 0 <= i < |top| ==> top[i] in users.items)
      && (forall i, j :: 0 <= i < j < |top| ==> users.items[top[i]].score >= users.items[top[j]].score)
      && (forall i, u :: 0 <= i < |top| && u in users.items && u !in top ==> users.items[top[i]].score >= users.items[u].score)
  {
    var scores := Scores(users);
    var top := TopScorers(users);
    Ranking.TopIsBest(users.keys, scores, TOP_COUNT);
    forall i, u | 0 <= i < |top| && u in users.items && u !in top
      ensures users.items[top[i]].score >= users.items[u].score
    {
      assert u in users.keys;
    }
  }

  // ---------------------------------------------------------------------
  // Logging in
  // ---------------------------------------------------------------------

  /** How a `LOGIN` request ends. */
  datatype LoginOutcome =
    | LoginRaised                       // `split_data` failed and indexing its `[None]` raised `IndexError`
    | LoginRefused(reason: string)      // an `ERROR` reply with this text
    | LoginAccepted(user: string)       // `LOGIN_OK` and a new session for `user`

  /**
   * The decision `handle_login_message` makes for `user#password`: unknown
   * user, then a user already logged in, then a wrong password are refused.
   */
  function Login(users: map<string, User>, logged: map<string, Conn>, data: string): (r: LoginOutcome)
    ensures r.LoginRaised? <==> Count(data, DATA_DELIMITER) != 1
    ensures r.LoginRefused? ==> r.reason in {UNKNOWN_USER, ALREADY_LOGGED_IN, WRONG_PASSWORD}
    ensures r.LoginAccepted? ==> r.user in users && r.user !in logged
  {
    match SplitData(data, 1)
    case None => LoginRaised
    case Some(fields) =>
      var user, password := fields[0], fields[1];
      if user !in users then LoginRefused(UNKNOWN_USER)
      else if user in logged then LoginRefused(ALREADY_LOGGED_IN)
      else if users[user].password != password then LoginRefused(WRONG_PASSWORD)
      else LoginAccepted(user)
  }

  /**
   * A login is accepted exactly for the credentials of a registered user who
   * holds no session, sent the way the client sends them (`username + "#" + password`).
   */
  lemma LoginAcceptedIff(users: map<string, User>, logged: map<string, Conn>, user: string, password: string)
    requires DATA_DELIMITER !in user && DATA_DELIMITER !in password
    ensures Login(users, logged, user + [DATA_DELIMITER] + password) == LoginAccepted(user)
        <==> user in users && user !in logged && users[user].password == password
  {
    JoinPair(user, password);
    SplitDataJoin([user, password]);
  }

  /**
   * Which refusal `user#password` gets: the checks run in the order unknown
   * user, existing session, password, so a logged-in user is refused as such
   * whatever the password.
   */
  lemma LoginRefusals(users: map<string, User>, logged: map<string, Conn>, user: string, password: string)
    requires DATA_DELIMITER !in user && DATA_DELIMITER !in password
    ensures user !in users ==>
      Login(users, logged, user + [DATA_DELIMITER] + password) == LoginRefused(UNKNOWN_USER)
    ensures user in users && user in logged ==>
      Login(users, logged, user + [DATA_DELIMITER] + password) == LoginRefused(ALREADY_LOGGED_IN)
    ensures user in users && user !in logged && users[user].password != password ==>
      Login(users, logged, user + [DATA_DELIMITER] + password) == LoginRefused(WRONG_PASSWORD)
  {
    JoinPair(user, password);
    SplitDataJoin([user, password]);
  }

  /** Only a well-formed `user#password` can be accepted, and only for that user. */
  lemma LoginAcceptedReadsCredentials(users: map<string, User>, logged: map<string, Conn>, data: string)
    requires Login(users, logged, data).LoginAccepted?
    ensures
      var user := Login(users, logged, data).user;
      && user in users && user !in logged
      && data == user + [DATA_DELIMITER] + users[user].password
  {
    var fields := SplitData(data, 1).value;
    assert fields[1..][1..] == [];
    assert Join(fields, [DATA_DELIMITER]) == fields[0] + [DATA_DELIMITER] + fields[1];
  }

  /** A user whose stored password holds `#` can never log in: the data would hold two `#`. */
  lemma DelimitedPasswordNeverAccepted(users: map<string, User>, logged: map<string, Conn>, data: string)
    ensures Login(users, logged, data).LoginAccepted? ==>
      DATA_DELIMITER !in users[Login(users, logged, data).user].password
  {
    if Login(users, logged, data).LoginAccepted? {
      var user := Login(users, logged, data).user;
      var password := users[user].password;
      LoginAcceptedReadsCredentials(users, logged, data);
      CountAppend(user + [DATA_DELIMITER], password, DATA_DELIMITER);
      CountAppend(user, [DATA_DELIMITER], DATA_DELIMITER);
      assert Count([DATA_DELIMITER], DATA_DELIMITER) == 1;
    }
  }

  // ---------------------------------------------------------------------
  // Dictionary helper
  // ---------------------------------------------------------------------

  /** `get_key_by_value`: the first key, in iteration order, whose value is `targetValue`. */
  method GetKeyByValue<K(==), V(==)>(dictionary: Dict<K, V>, targetValue: V) returns (key: Option<K>)
    requires dictionary.Valid()
    ensures key == KeyOf(dictionary, targetValue)
    ensures key.None? <==> targetValue !in dictionary.items.Values
    ensures key.Some? ==> key.value in dictionary.items && dictionary.items[key.value] == targetValue
  {
    for i := 0 to |dictionary.keys|
      invariant forall j :: 0 <= j < i ==> dictionary.items[dictionary.keys[j]] != targetValue
    {
      var k := dictionary.keys[i];
      if dictionary.items[k] == targetValue {
        return Some(k);
      }
    }
    return None;
  }

  /** Giving a fresh value to a key keeps values distinct. */
  lemma PutFreshValueKeepsInjective<K, V>(d: Dict<K, V>, k: K, v: V)
    requires d.Valid() && Injective(d) && v !in d.items.Values
    ensures Injective(d.Put(k, v))
  {
  }

  /** With distinct values, removing the key of `v` removes `v` itself. */
  lemma RemoveKeyOfValue<K, V>(d: Dict<K, V>, v: V)
    requires d.Valid() && Injective(d) && v in d.items.Values
    ensures Injective(d.Remove(KeyOf(d, v).value))
    ensures v !in d.Remove(KeyOf(d, v).value).items.Values
  {
  }

  // ---------------------------------------------------------------------
  // The game state
  // ---------------------------------------------------------------------

  class GameState {
    var users: Dict<string, User>
    var questions: map<int, Question>
    var loggedUsers: Dict<string, Conn>
    var outbox: seq<Outbound>

    /** The dictionaries are well formed, sessions belong to users, and asked ids are questions. */
    ghost predicate Valid()
      reads this`users, this`loggedUsers, this`questions
    {
      && users.Valid()
      && loggedUsers.Valid()
      && (forall u :: u in loggedUsers.items ==> u in users.items)
      && AllAskedAreQuestions(users.items, questions)
    }

    /** No connection holds two sessions. */
    ghost predicate OneUserPerConn()
      reads this`loggedUsers
    {
      Injective(loggedUsers)
    }

    /** The state after loading: the given users and questions, nobody logged in, nothing queued. */
    constructor (initialUsers: Dict<string, User>, initialQuestions: map<int, Question>)
      requires initialUsers.Valid()
      requires AllAskedAreQuestions(initialUsers.items, initialQuestions)
      ensures Valid() && OneUserPerConn()
      ensures users == initialUsers && questions == initialQuestions
      ensures loggedUsers == Dict([], map[]) && outbox == []
    {
      users := initialUsers;
      questions := initialQuestions;
      loggedUsers := Dict([], map[]);
      outbox := [];
    }

    /** `build_and_send_message`: queue one built frame for `conn` after everything already queued. */
    method BuildAndSendMessage(conn: Conn, code: string, msg: string)
      modifies this`outbox
      ensures outbox == old(outbox) + [Outbound(conn, BuildMessage(code, msg))]
    {
      var fullMsg := BuildMessage(code, msg);
      outbox := outbox + [Outbound(conn, fullMsg)];
    }

    /** `send_error`: queue an `ERROR` frame carrying the message. */
    method SendError(conn: Conn, errorMsg: string)
      modifies this`outbox
      ensures outbox == old(outbox) + [Outbound(conn, BuildMessage(ERROR, errorMsg))]
    {
      BuildAndSendMessage(conn, ERROR, errorMsg);
    }

    /**
     * `create_random_question`: `""` when every question has been asked of
     * the user, otherwise the payload of some question not yet asked. The
     * random retry loop is a choice of any unasked id.
     */
    method CreateRandomQuestion(username: string) returns (question: string)
      requires Valid() && username in users.items
      ensures question == "" <==> !HasUnasked(questions, users.items[username].questionsAsked)
      ensures question != "" ==>
        exists id :: id in questions && id !in users.items[username].questionsAsked
                  && question == QuestionPayload(id, questions[id])
    {
      var asked := users.items[username].questionsAsked;
      var answers := "";
      if exists id :: id in questions && id !in asked {
        var questionId :| questionId in questions && questionId !in asked;
        var info := questions[questionId];
        for i := 0 to |info.answers|
          invariant answers == Terminated(info.answers[..i], [DATA_DELIMITER])
        {
          assert info.answers[..i + 1][..i] == info.answers[..i];
          answers := answers + info.answers[i] + [DATA_DELIMITER];
        }
        assert info.answers[..|info.answers|] == info.answers;
        TrimTerminated(info.answers, [DATA_DELIMITER]);
        answers := SliceTo(answers, -1);
        question := IntToString(questionId) + [DATA_DELIMITER] + info.text + [DATA_DELIMITER] + answers;
      } else {
        question := "";
      }
    }

    /** `handle_question_message`: `YOUR_QUESTION` with an unasked question, or an empty `NO_QUESTIONS`. */
    method HandleQuestionMessage(conn: Conn, username: string)
      requires Valid() && username in users.items
      modifies this`outbox
      ensures HasUnasked(questions, users.items[username].questionsAsked) ==>
        exists id :: id in questions && id !in users.items[username].questionsAsked
                  && outbox == old(outbox) + [Outbound(conn, BuildMessage(YOUR_QUESTION, QuestionPayload(id, questions[id])))]
      ensures !HasUnasked(questions, users.items[username].questionsAsked) ==>
        outbox == old(outbox) + [Outbound(conn, BuildMessage(NO_QUESTIONS, ""))]
    {
      var question := CreateRandomQuestion(username);
      if question != "" {
        BuildAndSendMessage(conn, YOUR_QUESTION, question);
      } else {
        BuildAndSendMessage(conn, NO_QUESTIONS, question);
      }
    }

    /** `handle_getscore_message`: `YOUR_SCORE` with the user's score. */
    method HandleGetscoreMessage(conn: Conn, username: string)
      requires Valid() && username in users.items
      modifies this`outbox
      ensures outbox == old(outbox) + [Outbound(conn, BuildMessage(YOUR_SCORE, IntToString(users.items[username].score)))]
    {
      var msg := users.items[username].score;
      BuildAndSendMessage(conn, YOUR_SCORE, IntToString(msg));
    }

    /**
     * `handle_answer_message`: a matching choice earns `CORRECT_ANSWER` and
     * five points, any other choice `WRONG_ANSWER` with the right index; the
     * question id is appended to the user's asked list either way.
     */
    method HandleAnswerMessage(conn: Conn, username: string, data: string) returns (status: Status)
      requires Valid() && username in users.items
      modifies this`users, this`outbox
      ensures Valid()
      ensures users.keys == old(users.keys)
      ensures ReadAnswer(data, questions).Failure? ==>
        && status == Raised(ReadAnswer(data, questions).error)
        && users == old(users) && outbox == old(outbox)
      ensures ReadAnswer(data, questions).Success? ==>
        var answer := ReadAnswer(data, questions).value;
        var before := old(users.items[username]);
        var correct := questions[answer.id].correct;
        && status == Completed
        && users.items == old(users.items)[username := User(
             before.password,
             if correct == answer.choice then before.score + REWARD else before.score,
             before.questionsAsked + [answer.id])]
        && outbox == old(outbox) + [Outbound(conn,
             if correct == answer.choice then BuildMessage(CORRECT_ANSWER, "") else BuildMessage(WRONG_ANSWER, correct))]
    {
      var idquestionChoice := SplitData(data, 1);
      if idquestionChoice.None? {
        return Raised(TypeError);
      }
      var idquestion := ParseInt(idquestionChoice.value[0]);
      if idquestion.None? {
        return Raised(ValueError);
      }
      var choice := idquestionChoice.value[1];
      if idquestion.value !in questions {
        return Raised(KeyError);
      }
      assert ReadAnswer(data, questions) == Success(Answer(idquestion.value, choice));
      RecordAnswer(conn, username, idquestion.value, choice);
      status := Completed;
    }

    /**
     * The scoring half of `handle_answer_message`, once the question is
     * known: reply, add the reward for a matching choice, record the id.
     */
    method RecordAnswer(conn: Conn, username: string, id: int, choice: string)
      requires Valid() && username in users.items && id in questions
      modifies this`users, this`outbox
      ensures Valid()
      ensures users.keys == old(users.keys)
      ensures
        var before := old(users.items[username]);
        var correct := questions[id].correct;
        && users.items == old(users.items)[username := User(
             before.password,
             if correct == choice then before.score + REWARD else before.score,
             before.questionsAsked + [id])]
        && outbox == old(outbox) + [Outbound(conn,
             if correct == choice then BuildMessage(CORRECT_ANSWER, "") else BuildMessage(WRONG_ANSWER, correct))]
    {
      var correctAns := questions[id].correct;
      // The user record is updated in place: score first, then the asked list.
      var user := users.items[username];
      if correctAns == choice {
        BuildAndSendMessage(conn, CORRECT_ANSWER, "");
        user := user.(score := user.score + REWARD);
      } else {
        BuildAndSendMessage(conn, WRONG_ANSWER, correctAns);
      }
      RecordQuestionKeepsAsked(users.items[username := user], username, id, questions);
      user := user.(questionsAsked := user.questionsAsked + [id]);
      users := users.Put(username, user);
    }

    /** `handle_highscore_message`: `ALL_SCORE` with one line for each of the five best users. */
    method HandleHighscoreMessage(conn: Conn)
      requires Valid()
      modifies this`outbox
      ensures outbox == old(outbox) + [Outbound(conn, BuildMessage(ALL_SCORE, ScoreTable(TopScorers(users), users.items)))]
    {
      var table := users.items;
      var sortedUsers := Ranking.RankByScore(users.keys, Scores(users));
      var msg := "";
      var counter := 0;
      var i := 0;
      while i < |sortedUsers|
        invariant i <= |sortedUsers| && i < TOP_COUNT && counter == i
        invariant forall k :: 0 <= k < |sortedUsers| ==> sortedUsers[k] in table
        invariant outbox == old(outbox)
        invariant msg == ScoreTable(sortedUsers[..i], table)
      {
        var username := sortedUsers[i];
        ScoreTableAppend(sortedUsers, i, table);
        msg := msg + "\n" + username + ": " + IntToString(table[username].score);
        counter := counter + 1;
        i := i + 1;
        if counter == TOP_COUNT {
          break;
        }
      }
      assert sortedUsers[..i] == Ranking.Top(users.keys, Scores(users), TOP_COUNT);
      assert msg == ScoreTable(TopScorers(users), users.items);
      BuildAndSendMessage(conn, ALL_SCORE, msg);
    }

    /** `handle_logged_message`: `LOGGED_ANSWER` with the logged-in names, in login order, joined by ", ". */
    method HandleLoggedMessage(conn: Conn)
      requires Valid()
      modifies this`outbox
      ensures outbox == old(outbox) + [Outbound(conn, BuildMessage(LOGGED_ANSWER, Join(loggedUsers.keys, ", ")))]
      ensures loggedUsers.keys == [] ==> outbox == old(outbox) + [Outbound(conn, BuildMessage(LOGGED_ANSWER, ""))]
    {
      var names := loggedUsers.keys;
      var msg := "";
      for i := 0 to |names|
        invariant msg == Terminated(names[..i], ", ")
      {
        assert names[..i + 1][..i] == names[..i];
        msg := msg + names[i] + ", ";
      }
      assert names[..|names|] == names;
      TrimTerminated(names, ", ");
      msg := SliceTo(msg, -2);
      BuildAndSendMessage(conn, LOGGED_ANSWER, msg);
    }

    /** `handle_logout_message`: the session of `conn` is removed from `logged_users`. */
    method HandleLogoutMessage(conn: Conn)
      requires Valid() && conn in loggedUsers.items.Values
      modifies this`loggedUsers
      ensures Valid()
      ensures loggedUsers == old(loggedUsers).Remove(KeyOf(old(loggedUsers), conn).value)
      ensures old(OneUserPerConn()) ==> OneUserPerConn() && conn !in loggedUsers.items.Values
    {
      var username := GetKeyByValue(loggedUsers, conn);
      if old(OneUserPerConn()) {
        RemoveKeyOfValue(loggedUsers, conn);
      }
      loggedUsers := loggedUsers.Remove(username.value);
    }

    /**
     * `handle_login_message`: unknown user, then already logged in, then
     * wrong password each earn an `ERROR`; only success sends `LOGIN_OK`
     * and records the session.
     */
    method HandleLoginMessage(conn: Conn, data: string) returns (status: Status)
      requires Valid()
      modifies this`loggedUsers, this`outbox
      ensures Valid()
      ensures old(OneUserPerConn()) && conn !in old(loggedUsers.items.Values) ==> OneUserPerConn()
      ensures
        var outcome := Login(users.items, old(loggedUsers.items), data);
        && (outcome.LoginRaised? ==>
              status == Raised(IndexError) && loggedUsers == old(loggedUsers) && outbox == old(outbox))
        && (outcome.LoginRefused? ==>
              && status == Completed && loggedUsers == old(loggedUsers)
              && outbox == old(outbox) + [Outbound(conn, BuildMessage(ERROR, outcome.reason))])
        && (outcome.LoginAccepted? ==>
              && status == Completed && loggedUsers == old(loggedUsers).Put(outcome.user, conn)
              && outbox == old(outbox) + [Outbound(conn, BuildMessage(LOGIN_OK, ""))])
    {
      var userAndPass := SplitData(data, 1);
      if userAndPass.None? {
        return Raised(IndexError);
      }
      var user := userAndPass.value[0];
      var password := userAndPass.value[1];
      if user in users.items {
        if user in loggedUsers.items {
          assert Login(users.items, loggedUsers.items, data) == LoginRefused(ALREADY_LOGGED_IN);
          SendError(conn, ALREADY_LOGGED_IN);
        } else if users.items[user].password == password {
          assert Login(users.items, loggedUsers.items, data) == LoginAccepted(user);
          OpenSession(conn, user);
        } else {
          assert Login(users.items, loggedUsers.items, data) == LoginRefused(WRONG_PASSWORD);
          SendError(conn, WRONG_PASSWORD);
        }
      } else {
        assert Login(users.items, loggedUsers.items, data) == LoginRefused(UNKNOWN_USER);
        SendError(conn, UNKNOWN_USER);
      }
      status := Completed;
    }

    /** The success branch of `handle_login_message`: `LOGIN_OK`, then the session is recorded. */
    method OpenSession(conn: Conn, user: string)
      requires Valid() && user in users.items && user !in loggedUsers.items
      modifies this`loggedUsers, this`outbox
      ensures Valid()
      ensures old(OneUserPerConn()) && conn !in old(loggedUsers.items.Values) ==> OneUserPerConn()
      ensures loggedUsers == old(loggedUsers).Put(user, conn)
      ensures outbox == old(outbox) + [Outbound(conn, BuildMessage(LOGIN_OK, ""))]
    {
      BuildAndSendMessage(conn, LOGIN_OK, "");
      if OneUserPerConn() && conn !in loggedUsers.items.Values {
        PutFreshValueKeepsInjective(loggedUsers, user, conn);
      }
      loggedUsers := loggedUsers.Put(user, conn);
    }

    /**
     * What a command from the session of `username` on `conn` does: the
     * handler the command names runs, with the reply it queues and the state
     * it changes; any other command changes nothing and is not answered.
     */
    twostate predicate SessionCommandEffect(conn: Conn, username: string, cmd: string, data: string, status: Status)
      requires old(Valid()) && username in old(loggedUsers.items)
      reads this
    {
      var user := old(users.items[username]);
      var sessionsKept := users == old(users) && loggedUsers == old(loggedUsers);
      if cmd == LOGOUT then
        && status == Completed && users == old(users) && outbox == old(outbox)
        && loggedUsers == old(loggedUsers).Remove(username)
      else if cmd == MY_SCORE then
        && status == Completed && sessionsKept
        && outbox == old(outbox) + [Outbound(conn, BuildMessage(YOUR_SCORE, IntToString(user.score)))]
      else if cmd == HIGHSCORE then
        && status == Completed && sessionsKept
        && outbox == old(outbox) + [Outbound(conn, BuildMessage(ALL_SCORE, ScoreTable(TopScorers(old(users)), old(users.items))))]
      else if cmd == LOGGED then
        && status == Completed && sessionsKept
        && outbox == old(outbox) + [Outbound(conn, BuildMessage(LOGGED_ANSWER, Join(old(loggedUsers.keys), ", ")))]
      else if cmd == GET_QUESTION then
        && status == Completed && sessionsKept
        && (HasUnasked(questions, user.questionsAsked) ==>
              exists id :: id in questions && id !in user.questionsAsked
                        && outbox == old(outbox) + [Outbound(conn, BuildMessage(YOUR_QUESTION, QuestionPayload(id, questions[id])))])
        && (!HasUnasked(questions, user.questionsAsked) ==>
              outbox == old(outbox) + [Outbound(conn, BuildMessage(NO_QUESTIONS, ""))])
      else if cmd == SEND_ANSWER then
        && loggedUsers == old(loggedUsers)
        && match ReadAnswer(data, questions)
           case Failure(error) => status == Raised(error) && users == old(users) && outbox == old(outbox)
           case Success(answer) =>
             var correct := questions[answer.id].correct;
             && status == Completed
             && users.items == old(users.items)[username := User(
                  user.password,
                  if correct == answer.choice then user.score + REWARD else user.score,
                  user.questionsAsked + [answer.id])]
             && outbox == old(outbox) + [Outbound(conn,
                  if correct == answer.choice then BuildMessage(CORRECT_ANSWER, "") else BuildMessage(WRONG_ANSWER, correct))]
      else
        // none of the six session commands: no handler runs
        status == Completed && sessionsKept && outbox == old(outbox)
    }

    /**
     * `handle_client_message`: a connection without a session may only log
     * in; a logged-in connection is routed by command, and anything it
     * sends outside its commands (including `LOGIN`) goes unanswered.
     */
    method HandleClientMessage(conn: Conn, cmd: string, data: string) returns (status: Status)
      requires Valid()
      modifies this`users, this`loggedUsers, this`outbox
      ensures Valid()
      ensures old(OneUserPerConn()) ==> OneUserPerConn()
      ensures users.keys == old(users.keys)
      ensures conn !in old(loggedUsers.items.Values) && cmd == LOGIN ==>
        var outcome := Login(users.items, old(loggedUsers.items), data);
        && users == old(users)
        && (outcome.LoginRaised? ==>
              status == Raised(IndexError) && loggedUsers == old(loggedUsers) && outbox == old(outbox))
        && (outcome.LoginRefused? ==>
              && status == Completed && loggedUsers == old(loggedUsers)
              && outbox == old(outbox) + [Outbound(conn, BuildMessage(ERROR, outcome.reason))])
        && (outcome.LoginAccepted? ==>
              && status == Completed && loggedUsers == old(loggedUsers).Put(outcome.user, conn)
              && outbox == old(outbox) + [Outbound(conn, BuildMessage(LOGIN_OK, ""))])
      ensures conn !in old(loggedUsers.items.Values) && cmd != LOGIN ==>
        && status == Completed && users == old(users) && loggedUsers == old(loggedUsers)
        && outbox == old(outbox) + [Outbound(conn, BuildMessage(ERROR, UNKNOWN_COMMAND))]
      ensures conn in old(loggedUsers.items.Values) ==>
        SessionCommandEffect(conn, KeyOf(old(loggedUsers), conn).value, cmd, data, status)
      ensures conn in old(loggedUsers.items.Values) && cmd != LOGOUT ==> loggedUsers == old(loggedUsers)
      ensures cmd != SEND_ANSWER ==> users == old(users)
      ensures forall u :: u in loggedUsers.items && u !in old(loggedUsers.items) ==>
        && cmd == LOGIN && conn !in old(loggedUsers.items.Values) && loggedUsers.items[u] == conn
        && outbox == old(outbox) + [Outbound(conn, BuildMessage(LOGIN_OK, ""))]
    {
      if conn !in loggedUsers.items.Values && cmd == LOGIN {
        status := HandleLoginMessage(conn, data);
      } else if conn in loggedUsers.items.Values {
        status := HandleSessionCommand(conn, cmd, data);
      } else {
        SendError(conn, UNKNOWN_COMMAND);
        status := Completed;
      }
    }

    /**
     * The logged-in branch of `handle_client_message`: the session's user is
     * looked up, and the one handler the command names runs for that user;
     * other commands do nothing.
     */
    method HandleSessionCommand(conn: Conn, cmd: string, data: string) returns (status: Status)
      requires Valid() && conn in loggedUsers.items.Values
      modifies this`users, this`loggedUsers, this`outbox
      ensures Valid()
      ensures old(OneUserPerConn()) ==> OneUserPerConn()
      ensures users.keys == old(users.keys)
      ensures cmd != LOGOUT ==> loggedUsers == old(loggedUsers)
      ensures cmd != SEND_ANSWER ==> users == old(users)
      ensures SessionCommandEffect(conn, KeyOf(old(loggedUsers), conn).value, cmd, data, status)
    {
      var key := GetKeyByValue(loggedUsers, conn);
      var username := key.value;
      status := Completed;
      // The commands are distinct, so at most one of the source's
      // consecutive `if`s fires; an `else if` chain does the same.
      if cmd == LOGOUT {
        HandleLogoutMessage(conn);
      } else if cmd == MY_SCORE {
        HandleGetscoreMessage(conn, username);
      } else if cmd == HIGHSCORE {
        HandleHighscoreMessage(conn);
      } else if cmd == LOGGED {
        HandleLoggedMessage(conn);
      } else if cmd == GET_QUESTION {
        HandleQuestionMessage(conn, username);
      } else if cmd == SEND_ANSWER {
        status := HandleAnswerMessage(conn, username, data);
      }
    }
  }
}
