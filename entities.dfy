/**
 * The JPA entities the services mutate in place: User, Question and
 * GameSession. Each is a class whose setters update its fields.
 */
module Entities {
  import opened Outcomes

  /** What `Question.getFromUser` shows instead of the author of an anonymous question. */
  const AnonymousAuthor: string := "Anónimo"

  /** A registered player (User.java). */
  class User {
    var username: string
    var sessionToken: string
    var ready: bool
    var gameSession: GameSession?

    /** `new User(username)`, with the random token supplied by the caller. */
    constructor (username: string, token: string)
      ensures this.username == username && sessionToken == token
      ensures !ready && gameSession == null
    {
      this.username := username;
      sessionToken := token;
      ready := false;
      gameSession := null;
    }

    method SetReady(ready: bool)
      modifies this`ready
      ensures this.ready == ready
    {
      this.ready := ready;
    }

    method SetGameSession(session: GameSession?)
      modifies this`gameSession
      ensures gameSession == session
    {
      gameSession := session;
    }
  }

  /**
   * A question submitted by a player during a round (Question.java). The id is
   * 0 until the question repository assigns one; `roundId` is the round the
   * question was submitted in.
   */
  class Question {
    var id: nat
    var fromUser: string
    var toUser: string
    var question: string
    var anonymous: bool
    var roundId: Option<string>
    var gameSession: GameSession?

    /** `new Question()`: every field at its default. */
    constructor Empty()
      ensures id == 0 && fromUser == "" && toUser == "" && question == ""
      ensures !anonymous && roundId == None && gameSession == null
    {
      id := 0;
      fromUser, toUser, question := "", "", "";
      anonymous := false;
      roundId := None;
      gameSession := null;
    }

    /** `new Question(fromUser, toUser, question)`: the texts verbatim, not anonymous. */
    constructor (fromUser: string, toUser: string, question: string)
      ensures this.fromUser == fromUser && this.toUser == toUser && this.question == question
      ensures !anonymous && id == 0 && roundId == None && gameSession == null
    {
      id := 0;
      this.fromUser, this.toUser, this.question := fromUser, toUser, question;
      anonymous := false;
      roundId := None;
      gameSession := null;
    }

    /** The author as read: redacted for an anonymous question, the stored value otherwise. */
    function GetFromUser(): (author: string)
      reads this`anonymous, this`fromUser
      ensures anonymous ==> author == AnonymousAuthor
      ensures !anonymous ==> author == fromUser
    {
      if anonymous then AnonymousAuthor else fromUser
    }

    /** Stores the author verbatim, whatever the anonymous flag. */
    method SetFromUser(fromUser: string)
      modifies this`fromUser
      ensures this.fromUser == fromUser
      ensures GetFromUser() == if anonymous then AnonymousAuthor else fromUser
    {
      this.fromUser := fromUser;
    }

    method SetToUser(toUser: string)
      modifies this`toUser
      ensures this.toUser == toUser
    {
      this.toUser := toUser;
    }

    method SetQuestion(question: string)
      modifies this`question
      ensures this.question == question
    {
      this.question := question;
    }

    /** Switching the flag only changes what is read: the stored author is kept. */
    method SetAnonymous(anonymous: bool)
      modifies this`anonymous
      ensures this.anonymous == anonymous
      ensures !anonymous ==> GetFromUser() == fromUser
      ensures anonymous ==> GetFromUser() == AnonymousAuthor
    {
      this.anonymous := anonymous;
    }

    method SetRoundId(roundId: Option<string>)
      modifies this`roundId
      ensures this.roundId == roundId
    {
      this.roundId := roundId;
    }

    method SetGameSession(session: GameSession?)
      modifies this`gameSession
      ensures gameSession == session
    {
      gameSession := session;
    }
  }

  /**
   * A game session (GameSession.java) with the round fields the service keeps
   * on it: the current game, the current round id and the round status.
   */
  class GameSession {
    var sessionCode: string
    var creatorName: string
    var gameStarted: bool
    var currentQuestionIndex: int
    var questions: seq<Question>
    var users: seq<User>
    var shownQuestions: set<nat>
    var currentGame: Option<string>
    var currentRoundId: Option<string>
    var roundStatus: Option<string>

    /** `new GameSession()`: not started, at index 0, with no questions, users or shown ids. */
    constructor ()
      ensures !gameStarted && currentQuestionIndex == 0
      ensures questions == [] && users == [] && shownQuestions == {}
      ensures currentGame == None && currentRoundId == None && roundStatus == None
      ensures sessionCode == "" && creatorName == ""
    {
      sessionCode, creatorName := "", "";
      gameStarted := false;
      currentQuestionIndex := 0;
      questions, users := [], [];
      shownQuestions := {};
      currentGame, currentRoundId, roundStatus := None, None, None;
    }

    /** Appends the user and links it back to this session. */
    method AddUser(user: User)
      modifies this`users, user`gameSession
      ensures users == old(users) + [user]
      ensures user.gameSession == this
    {
      users := users + [user];
      user.gameSession := this;
    }

    /** Appends the question and links it back to this session. */
    method AddQuestion(question: Question)
      modifies this`questions, question`gameSession
      ensures questions == old(questions) + [question]
      ensures question.gameSession == this
    {
      questions := questions + [question];
      question.gameSession := this;
    }

    /** Replaces the shown set wholesale. */
    method SetShownQuestions(shown: set<nat>)
      modifies this`shownQuestions
      ensures shownQuestions == shown
    {
      shownQuestions := shown;
    }

    /** `getShownQuestions().add(id)`: a set, so adding an id already there changes nothing. */
    method MarkShown(id: nat)
      modifies this`shownQuestions
      ensures shownQuestions == old(shownQuestions) + {id}
      ensures id in old(shownQuestions) ==> shownQuestions == old(shownQuestions)
    {
      shownQuestions := shownQuestions + {id};
    }
  }
}
