// The captive portal's name server: it answers every address question with the
// portal's own address. Written replies are checked against a reader for the
// message format of RFC 1035, sections 4.1.1 to 4.1.4.
module CaptiveDns {
  import opened Wrappers

  type Octet = b: int | 0 <= b < 256

  type Label = seq<Octet>

  const HEADER_BYTES: nat := 12
  const TYPE_A: nat := 1
  const CLASS_IN: nat := 1
  const TTL_SECONDS: nat := 60
  const RESPONSE_FLAGS: nat := 0x8180

  function U16(msg: seq<Octet>, at: nat): nat
    requires at + 2 <= |msg|
  {
    var high: int := msg[at];
    high * 256 + msg[at + 1]
  }

  function U32(msg: seq<Octet>, at: nat): nat
    requires at + 4 <= |msg|
  {
    U16(msg, at) * 0x1_0000 + U16(msg, at + 2)
  }

  // The responder.

  /** Where skipping labels by their length bytes stops. */
  function NameEnd(query: seq<Octet>, cursor: nat): (end: nat)
    ensures end >= cursor
    decreases |query| - cursor
  {
    if cursor >= |query| then cursor
    else if query[cursor] == 0 then cursor + 1
    else NameEnd(query, cursor + 1 + query[cursor])
  }

  function QuestionEnd(query: seq<Octet>): nat {
    NameEnd(query, HEADER_BYTES) + 4
  }

  predicate AsksForAddress(query: seq<Octet>)
    requires QuestionEnd(query) <= |query|
  {
    var cursor := NameEnd(query, HEADER_BYTES);
    U16(query, cursor) == TYPE_A && U16(query, cursor + 2) == CLASS_IN
  }

  function Header(query: seq<Octet>, answers: Octet): seq<Octet>
    requires |query| >= HEADER_BYTES
  {
    query[0..2] + [0x81, 0x80] + query[4..6] + [0, answers] + [0, 0, 0, 0]
  }

  function AddressRecord(portal: seq<Octet>): seq<Octet> {
    [0xC0, 0x0C] + [0, 1] + [0, 1] + [0, 0, 0, 60] + [0, 4] + portal
  }

  function Response(query: seq<Octet>, portal: seq<Octet>): Option<seq<Octet>> {
    if |query| < HEADER_BYTES || U16(query, 4) == 0 || QuestionEnd(query) > |query| then None
    else
      var question := query[HEADER_BYTES..QuestionEnd(query)];
      if AsksForAddress(query) then Some(Header(query, 1) + question + AddressRecord(portal))
      else Some(Header(query, 0) + question)
  }

  method BuildCaptiveDnsResponse(query: seq<Octet>, portal: seq<Octet>) returns (r: Option<seq<Octet>>)
    requires |portal| == 4
    ensures r == Response(query, portal)
  {
    if |query| < 12 {
      return None;
    }
    var questionCount := U16(query, 4);
    if questionCount == 0 {
      return None;
    }
    var cursor := 12;
    while cursor < |query|
      invariant NameEnd(query, cursor) == NameEnd(query, HEADER_BYTES) && cursor >= 12
      decreases |query| - cursor
    {
      var labelLen := query[cursor];
      if labelLen == 0 {
        cursor := cursor + 1;
        break;
      }
      cursor := cursor + 1 + labelLen;
    }
    assert cursor == NameEnd(query, HEADER_BYTES);
    var questionEnd := cursor + 4;
    if questionEnd > |query| {
      return None;
    }
    var qtype := U16(query, cursor);
    var qclass := U16(query, cursor + 2);
    var answerCount := if qtype == 1 && qclass == 1 then 1 else 0;
    var response := query[0..2];
    response := response + [0x81, 0x80];
    response := response + query[4..6];
    response := response + [0, answerCount];
    response := response + [0, 0, 0, 0];
    response := response + query[12..questionEnd];
    if answerCount == 1 {
      assert response == Header(query, 1) + query[HEADER_BYTES..questionEnd];
      ghost var head := response;
      response := response + [0xC0, 0x0C];
      response := response + [0, 1];
      response := response + [0, 1];
      response := response + [0, 0, 0, 60];
      response := response + [0, 4];
      response := response + portal;
      assert response == head + AddressRecord(portal);
    }
    return Some(response);
  }

  // A reader.

  /** A name from `pos`: labels, or a pointer to something before `limit`. */
  function ReadName(msg: seq<Octet>, pos: nat, limit: nat): Option<(seq<Label>, nat)>
    decreases limit, |msg| - pos
  {
    if pos >= |msg| then None
    else
      var length := msg[pos];
      if length == 0 then Some(([], pos + 1))
      else if length < 64 then
        if pos + 1 + length > |msg| then None
        else
          match ReadName(msg, pos + 1 + length, limit)
          case None => None
          case Some((labels, next)) => Some(([msg[pos + 1..pos + 1 + length]] + labels, next))
      else if length < 192 || pos + 2 > |msg| then None
      else
        var target := U16(msg, pos) - 0xC000;
        if target >= limit then None
        else
          match ReadName(msg, target, target)
          case None => None
          case Some((labels, _)) => Some((labels, pos + 2))
  }

  datatype Question = Question(name: seq<Label>, qtype: nat, qclass: nat)

  datatype Record = Record(name: seq<Label>, rtype: nat, rclass: nat, ttl: nat, rdata: seq<Octet>)

  datatype Message = Message(
    id: nat, flags: nat, questions: seq<Question>, answers: seq<Record>,
    authorities: seq<Record>, additionals: seq<Record>)

  function ReadQuestion(msg: seq<Octet>, pos: nat): Option<(Question, nat)> {
    match ReadName(msg, pos, pos)
    case None => None
    case Some((name, next)) =>
      if next + 4 > |msg| then None
      else Some((Question(name, U16(msg, next), U16(msg, next + 2)), next + 4))
  }

  function ReadRecord(msg: seq<Octet>, pos: nat): Option<(Record, nat)> {
    match ReadName(msg, pos, pos)
    case None => None
    case Some((name, next)) =>
      if next + 10 > |msg| then None
      else
        var end := next + 10 + U16(msg, next + 8);
        if end > |msg| then None
        else Some((Record(name, U16(msg, next), U16(msg, next + 2), U32(msg, next + 4), msg[next + 10..end]), end))
  }

  function ReadQuestions(msg: seq<Octet>, pos: nat, count: nat): Option<(seq<Question>, nat)>
    decreases count
  {
    if count == 0 then Some(([], pos))
    else match ReadQuestion(msg, pos)
      case None => None
      case Some((question, next)) =>
        match ReadQuestions(msg, next, count - 1)
        case None => None
        case Some((rest, end)) => Some(([question] + rest, end))
  }

  function ReadRecords(msg: seq<Octet>, pos: nat, count: nat): Option<(seq<Record>, nat)>
    decreases count
  {
    if count == 0 then Some(([], pos))
    else match ReadRecord(msg, pos)
      case None => None
      case Some((record, next)) =>
        match ReadRecords(msg, next, count - 1)
        case None => None
        case Some((rest, end)) => Some(([record] + rest, end))
  }

  /** A whole message, with nothing left over. */
  function ReadMessage(msg: seq<Octet>): Option<Message> {
    if |msg| < HEADER_BYTES then None
    else match ReadQuestions(msg, HEADER_BYTES, U16(msg, 4))
      case None => None
      case Some((questions, a)) =>
        match ReadRecords(msg, a, U16(msg, 6))
        case None => None
        case Some((answers, b)) =>
          match ReadRecords(msg, b, U16(msg, 8))
          case None => None
          case Some((authorities, c)) =>
            match ReadRecords(msg, c, U16(msg, 10))
            case None => None
            case Some((additionals, d)) =>
              if d != |msg| then None
              else Some(Message(U16(msg, 0), U16(msg, 2), questions, answers, authorities, additionals))
  }

  // Queries with labels of at most 63 bytes, as section 2.3.4 requires.

  predicate ShortLabels(query: seq<Octet>, cursor: nat)
    decreases |query| - cursor
  {
    cursor >= |query| || query[cursor] == 0 ||
    (query[cursor] < 64 && ShortLabels(query, cursor + 1 + query[cursor]))
  }

  /** Skipping labels and reading them end in the same place, in any message
      that has the same bytes there. */
  lemma {:induction false} ReadsWhatWasSkipped(query: seq<Octet>, msg: seq<Octet>, pos: nat)
    returns (labels: seq<Label>)
    requires ShortLabels(query, pos) && NameEnd(query, pos) < |query| && NameEnd(query, pos) <= |msg|
    requires forall i :: pos <= i < NameEnd(query, pos) ==> msg[i] == query[i]
    ensures forall limit: nat :: ReadName(query, pos, limit) == Some((labels, NameEnd(query, pos)))
    ensures forall limit: nat :: ReadName(msg, pos, limit) == Some((labels, NameEnd(query, pos)))
    decreases |query| - pos
  {
    if query[pos] == 0 {
      labels := [];
    } else {
      var next := pos + 1 + query[pos];
      var rest := ReadsWhatWasSkipped(query, msg, next);
      labels := [query[pos + 1..next]] + rest;
      assert msg[pos + 1..next] == query[pos + 1..next];
    }
  }

  /** A name that can be read without pointers is one that can be skipped. */
  lemma {:induction false} SkipsWhatCanBeRead(query: seq<Octet>, pos: nat, limit: nat)
    requires ShortLabels(query, pos) && ReadName(query, pos, limit).Some?
    ensures NameEnd(query, pos) == ReadName(query, pos, limit).value.1 <= |query|
    decreases |query| - pos
  {
    if query[pos] != 0 {
      SkipsWhatCanBeRead(query, pos + 1 + query[pos], limit);
    }
  }

  /** A reply is given to exactly the messages that have a header, ask something,
      and whose first question can be read. */
  lemma RepliesToReadableQuestions(query: seq<Octet>, portal: seq<Octet>)
    requires ShortLabels(query, HEADER_BYTES)
    ensures Response(query, portal).Some?
       <==> |query| >= HEADER_BYTES && U16(query, 4) != 0 && ReadQuestion(query, HEADER_BYTES).Some?
  {
    if Response(query, portal).Some? {
      var labels := ReadsWhatWasSkipped(query, query, HEADER_BYTES);
    } else if ReadName(query, HEADER_BYTES, HEADER_BYTES).Some? {
      SkipsWhatCanBeRead(query, HEADER_BYTES, HEADER_BYTES);
    }
  }

  // What a reply says.

  ghost predicate IsReply(query: seq<Octet>, portal: seq<Octet>, reply: seq<Octet>) {
    |portal| == 4 && ShortLabels(query, HEADER_BYTES) && Response(query, portal) == Some(reply)
  }

  /** Where everything is in a reply. */
  lemma ReplyLayout(query: seq<Octet>, portal: seq<Octet>, reply: seq<Octet>)
    requires IsReply(query, portal, reply)
    ensures HEADER_BYTES + 4 <= QuestionEnd(query) <= |query| && QuestionEnd(query) <= |reply|
    ensures U16(reply, 0) == U16(query, 0) && U16(reply, 2) == RESPONSE_FLAGS
    ensures U16(reply, 4) == U16(query, 4)
    ensures U16(reply, 6) == if AsksForAddress(query) then 1 else 0
    ensures U16(reply, 8) == 0 && U16(reply, 10) == 0
    ensures forall i :: HEADER_BYTES <= i < QuestionEnd(query) ==> reply[i] == query[i]
    ensures if AsksForAddress(query)
            then reply[QuestionEnd(query)..] == AddressRecord(portal) && |reply| == QuestionEnd(query) + 16
            else |reply| == QuestionEnd(query)
  {
    var question := query[HEADER_BYTES..QuestionEnd(query)];
    var header := Header(query, if AsksForAddress(query) then 1 else 0);
    assert |header| == HEADER_BYTES;
    assert reply[..HEADER_BYTES] == header;
    forall i | HEADER_BYTES <= i < QuestionEnd(query)
      ensures reply[i] == query[i]
    {
      assert (header + question)[i] == question[i - HEADER_BYTES];
    }
    if AsksForAddress(query) {
      assert reply == (header + question) + AddressRecord(portal);
    }
  }

  /** The name at `pos` reads as `name`, ending at `next`, however far back pointers may go. */
  ghost predicate NameReadsAs(msg: seq<Octet>, pos: nat, name: seq<Label>, next: nat) {
    forall limit: nat :: ReadName(msg, pos, limit) == Some((name, next))
  }

  /** The reply's first question is the query's. */
  lemma ReplyAsksTheSame(query: seq<Octet>, portal: seq<Octet>, reply: seq<Octet>) returns (question: Question)
    requires IsReply(query, portal, reply)
    ensures ReadQuestion(query, HEADER_BYTES) == Some((question, QuestionEnd(query)))
    ensures ReadQuestion(reply, HEADER_BYTES) == Some((question, QuestionEnd(query)))
    ensures AsksForAddress(query) <==> question.qtype == TYPE_A && question.qclass == CLASS_IN
    ensures NameReadsAs(reply, HEADER_BYTES, question.name, QuestionEnd(query) - 4)
  {
    ReplyLayout(query, portal, reply);
    hide Response, AddressRecord, Header;
    var next := NameEnd(query, HEADER_BYTES);
    var labels := ReadsWhatWasSkipped(query, reply, HEADER_BYTES);
    question := Question(labels, U16(query, next), U16(query, next + 2));
    hide ReadName, NameEnd, ShortLabels;
    SameWords(query, reply, next);
  }

  lemma SameWords(a: seq<Octet>, b: seq<Octet>, at: nat)
    requires at + 4 <= |a| && at + 4 <= |b|
    requires a[at] == b[at] && a[at + 1] == b[at + 1] && a[at + 2] == b[at + 2] && a[at + 3] == b[at + 3]
    ensures U16(a, at) == U16(b, at) && U16(a, at + 2) == U16(b, at + 2)
  {
  }

  /** The bytes of the answer, one by one. */
  lemma AnswerBytes(query: seq<Octet>, portal: seq<Octet>, reply: seq<Octet>, at: nat)
    requires IsReply(query, portal, reply) && AsksForAddress(query) && at == QuestionEnd(query)
    ensures |reply| == at + 16
    ensures U16(reply, at) == 0xC00C && reply[at] == 0xC0
    ensures U16(reply, at + 2) == TYPE_A && U16(reply, at + 4) == CLASS_IN
    ensures U32(reply, at + 6) == TTL_SECONDS && U16(reply, at + 10) == 4
    ensures reply[at + 12..] == portal
    ensures reply[at + 6] == 0 && reply[at + 11] == 4
  {
    ReplyLayout(query, portal, reply);
    var answer := AddressRecord(portal);
    hide Response, NameEnd;
    assert reply[at..] == answer;
    assert forall i :: 0 <= i < 16 ==> reply[at + i] == answer[i];
    assert answer[12..] == portal;
    assert reply[at + 12..] == reply[at..][12..];
  }

  lemma AnswerIsAnAddressRecord(
      query: seq<Octet>, portal: seq<Octet>, reply: seq<Octet>, question: Question)
    requires IsReply(query, portal, reply) && AsksForAddress(query)
    requires NameReadsAs(reply, HEADER_BYTES, question.name, QuestionEnd(query) - 4)
    ensures ReadRecord(reply, QuestionEnd(query))
         == Some((Record(question.name, TYPE_A, CLASS_IN, TTL_SECONDS, portal), |reply|))
  {
    var at := QuestionEnd(query);
    AnswerBytes(query, portal, reply, at);
    assert HEADER_BYTES < at;
    hide IsReply, Response, NameEnd;
    assert ReadName(reply, at, at) == Some((question.name, at + 2));
    assert reply[at + 12..at + 16] == reply[at + 12..];
  }

  /** Any reply to a one-question query reads back, in full, as a message with
      the query's id and question, and one address record for the asked name
      holding the portal's address if and only if an Internet address was asked for. */
  lemma ReplyReadsBack(query: seq<Octet>, portal: seq<Octet>, reply: seq<Octet>) returns (question: Question)
    requires IsReply(query, portal, reply) && U16(query, 4) == 1
    ensures ReadQuestion(query, HEADER_BYTES) == Some((question, QuestionEnd(query)))
    ensures ReadMessage(reply) == Some(Message(
      U16(query, 0), RESPONSE_FLAGS, [question],
      if question.qtype == TYPE_A && question.qclass == CLASS_IN
      then [Record(question.name, TYPE_A, CLASS_IN, TTL_SECONDS, portal)] else [],
      [], []))
  {
    question := ReplyAsksTheSame(query, portal, reply);
    ReplyLayout(query, portal, reply);
    if AsksForAddress(query) {
      AnswerIsAnAddressRecord(query, portal, reply, question);
    }
    hide ReadQuestion, ReadRecord, IsReply, NameEnd;
    OneQuestion(reply, question, QuestionEnd(query));
    if AsksForAddress(query) {
      OneRecord(reply, QuestionEnd(query), ReadRecord(reply, QuestionEnd(query)).value.0);
    }
  }

  lemma OneQuestion(msg: seq<Octet>, question: Question, next: nat)
    requires ReadQuestion(msg, HEADER_BYTES) == Some((question, next))
    ensures ReadQuestions(msg, HEADER_BYTES, 1) == Some(([question], next))
  {
    assert ReadQuestions(msg, next, 0) == Some(([], next));
    assert [question] + [] == [question];
  }

  lemma OneRecord(msg: seq<Octet>, at: nat, record: Record)
    requires ReadRecord(msg, at) == Some((record, |msg|))
    ensures ReadRecords(msg, at, 1) == Some(([record], |msg|))
  {
    assert ReadRecords(msg, |msg|, 0) == Some(([], |msg|));
    assert [record] + [] == [record];
  }

  // Queries that announce more than one question.

  lemma SecondQuestionIsMissing(query: seq<Octet>, portal: seq<Octet>, reply: seq<Octet>, count: nat)
    requires IsReply(query, portal, reply) && !AsksForAddress(query) && count >= 1
    ensures ReadQuestions(reply, QuestionEnd(query), count).None?
  {
    ReplyLayout(query, portal, reply);
  }

  /** Read as questions, an answer yields two that are not there and then runs out. */
  lemma AnswerMisreadAsQuestions(query: seq<Octet>, portal: seq<Octet>, reply: seq<Octet>, question: Question)
    requires IsReply(query, portal, reply) && AsksForAddress(query)
    requires NameReadsAs(reply, HEADER_BYTES, question.name, QuestionEnd(query) - 4)
    ensures var at := QuestionEnd(query);
      && ReadQuestion(reply, at).Some? && ReadQuestion(reply, at).value.1 == at + 6
      && ReadRecord(reply, at + 6).None?
      && ReadQuestion(reply, at + 6).Some? && ReadQuestion(reply, at + 6).value.1 == at + 11
      && ReadRecord(reply, at + 11).None?
      && ReadQuestion(reply, at + 11).None?
  {
    var at := QuestionEnd(query);
    AnswerBytes(query, portal, reply, at);
    assert HEADER_BYTES < at;
    hide IsReply, Response, NameEnd;
    assert ReadName(reply, at, at) == Some((question.name, at + 2));
    assert ReadName(reply, at + 6, at + 6) == Some(([], at + 7));
    assert ReadName(reply, at + 11, at + 11).None? by {
      assert ReadName(reply, at + 16, at + 11).None?;
    }
  }

  /** Replies are well formed exactly when the query announced one question: the
      count is copied but only the first question is. */
  lemma ReadableExactlyForOneQuestion(query: seq<Octet>, portal: seq<Octet>, reply: seq<Octet>)
    requires IsReply(query, portal, reply)
    ensures ReadMessage(reply).Some? <==> U16(query, 4) == 1
  {
    if U16(query, 4) == 1 {
      var question := ReplyReadsBack(query, portal, reply);
    } else {
      var count := U16(query, 4);
      var question := ReplyAsksTheSame(query, portal, reply);
      ReplyLayout(query, portal, reply);
      if AsksForAddress(query) {
        AnswerMisreadAsQuestions(query, portal, reply, question);
        hide ReadQuestion, ReadRecord, IsReply, NameEnd, AsksForAddress;
        TooManyQuestions(reply, QuestionEnd(query), count);
      } else {
        SecondQuestionIsMissing(query, portal, reply, count - 1);
        hide ReadQuestion, ReadRecord, IsReply, NameEnd, AsksForAddress;
      }
    }
  }

  lemma TooManyQuestions(reply: seq<Octet>, at: nat, count: nat)
    requires |reply| >= HEADER_BYTES && U16(reply, 4) == count >= 2 && U16(reply, 6) == 1
    requires ReadQuestion(reply, HEADER_BYTES).Some? && ReadQuestion(reply, HEADER_BYTES).value.1 == at
    requires ReadQuestion(reply, at).Some? && ReadQuestion(reply, at).value.1 == at + 6
    requires ReadRecord(reply, at + 6).None?
    requires ReadQuestion(reply, at + 6).Some? && ReadQuestion(reply, at + 6).value.1 == at + 11
    requires ReadRecord(reply, at + 11).None? && ReadQuestion(reply, at + 11).None?
    ensures ReadMessage(reply).None?
  {
    hide ReadQuestion, ReadRecord;
    var second := ReadQuestions(reply, at, count - 1);
    if count == 2 {
      assert ReadQuestions(reply, at + 6, 0) == Some(([], at + 6));
      assert second.Some? && second.value.1 == at + 6;
    } else {
      var third := ReadQuestions(reply, at + 6, count - 2);
      if count == 3 {
        assert ReadQuestions(reply, at + 11, 0) == Some(([], at + 11));
        assert third.Some? && third.value.1 == at + 11;
      } else {
        assert ReadQuestions(reply, at + 11, count - 3).None?;
      }
    }
  }
}
