/**
 * Runs of the handlers on concrete states, showing that situations the
 * lemmas about the model talk about can actually arise.
 */
module Scenarios {
  import opened OrderedDict
  import opened Strings
  import opened ChatLib
  import opened Wrappers
  import opened Server

  /**
   * Nothing stops a client from answering the same question twice: the
   * answer handler records the id both times. With a one-question bank the
   * asked list then outgrows the bank, and the question guard as written
   * still reports a question left although none is. Both answers score.
   */
  method AnswerTwice(name: string, q: Question, choice: string) returns (asked: seq<int>, bank: map<int, Question>, score: int)
    requires DATA_DELIMITER !in choice
    ensures asked == [1, 1] && score == if q.correct == choice then 2 * REWARD else 0
    ensures GuardAsWritten(bank, asked) && !HasUnasked(bank, asked)
  {
    var state := new GameState(Dict([name], map[name := User("", 0, [])]), map[1 := q]);
    var data := IntToString(1) + [DATA_DELIMITER] + choice;
    ReadAnswerOfClientData(1, choice, state.questions);
    var first := state.HandleAnswerMessage(Conn(0), name, data);
    var second := state.HandleAnswerMessage(Conn(0), name, data);
    asked := state.users.items[name].questionsAsked;
    bank := state.questions;
    score := state.users.items[name].score;
    GuardAsWrittenHangs(q);
  }

  /**
   * Two connections log in as the same user: the first is accepted, the
   * second is refused and the first keeps its session.
   */
  method SecondLoginRefused(user: string, password: string, c1: Conn, c2: Conn) returns (sessions: map<string, Conn>, replies: seq<Outbound>)
    requires DATA_DELIMITER !in user && DATA_DELIMITER !in password && c1 != c2
    ensures sessions == map[user := c1]
    ensures replies == [Outbound(c1, BuildMessage(LOGIN_OK, "")), Outbound(c2, BuildMessage(ERROR, ALREADY_LOGGED_IN))]
  {
    var state := new GameState(Dict([user], map[user := User(password, 0, [])]), map[]);
    var credentials := user + [DATA_DELIMITER] + password;
    JoinPair(user, password);
    SplitDataJoin([user, password]);
    assert Login(state.users.items, map[], credentials) == LoginAccepted(user);
    var first := state.HandleLoginMessage(c1, credentials);
    ghost var accepted := Outbound(c1, BuildMessage(LOGIN_OK, ""));
    assert state.outbox == [accepted];
    assert state.loggedUsers.items == map[user := c1];
    assert Login(state.users.items, state.loggedUsers.items, credentials) == LoginRefused(ALREADY_LOGGED_IN);
    var second := state.HandleLoginMessage(c2, credentials);
    ghost var refused := Outbound(c2, BuildMessage(ERROR, ALREADY_LOGGED_IN));
    assert state.outbox == [accepted] + [refused];
    sessions := state.loggedUsers.items;
    replies := state.outbox;
  }
}
