/** The DNS query the probe sends and the responses it accepts, on the layout of
    section 4.1 of RFC 1035. */
module DnsContract {
  import opened Machine

  /// `\x07example\x03com\x00`
  const QUERY_NAME: seq<u8> := [7, 101, 120, 97, 109, 112, 108, 101, 3, 99, 111, 109, 0]
  const HEADER_LEN: nat := 12
  const QUERY_LEN: nat := 29

  /** The question: the name, type A, class IN. */
  const QUESTION: seq<u8> := QUERY_NAME + [0, 1] + [0, 1]

  /** The header of a standard query with recursion desired and one question. */
  function QueryHeader(transactionId: u16): (header: seq<u8>)
    ensures |header| == HEADER_LEN
  {
    BigEndian(transactionId) + [1, 0] + [0, 1] + [0, 0] + [0, 0] + [0, 0]
  }

  function Query(transactionId: u16): (query: seq<u8>)
    ensures |query| == QUERY_LEN
  {
    QueryHeader(transactionId) + QUESTION
  }

  lemma PartsOfQuery(transactionId: u16)
    ensures Query(transactionId)[..HEADER_LEN] == QueryHeader(transactionId)
    ensures Query(transactionId)[HEADER_LEN..QUERY_LEN] == QUESTION
  {
  }

  method FillHeader(query: array<u8>, transactionId: u16)
    requires query.Length == QUERY_LEN && forall i | 0 <= i < HEADER_LEN :: query[i] == 0
    modifies query
    ensures query[..HEADER_LEN] == QueryHeader(transactionId)
  {
    CopySlice(query, 0, BigEndian(transactionId));
    CopySlice(query, 2, BigEndian(0x0100));
    CopySlice(query, 4, BigEndian(1));
  }

  method FillQuestion(query: array<u8>)
    requires query.Length == QUERY_LEN
    modifies query
    ensures query[HEADER_LEN..] == QUESTION
    ensures forall i | 0 <= i < HEADER_LEN :: query[i] == old(query[i])
  {
    CopySlice(query, 12, QUERY_NAME);
    var questionTail := 12 + |QUERY_NAME|;
    CopySlice(query, questionTail, BigEndian(1));
    CopySlice(query, questionTail + 2, BigEndian(1));
  }

  /** `build_query` fills a zeroed array piece by piece. */
  method BuildQuery(transactionId: u16) returns (query: array<u8>)
    ensures fresh(query) && query[..] == Query(transactionId)
  {
    query := new u8[QUERY_LEN](_ => 0);
    FillHeader(query, transactionId);
    ghost var header := query[..HEADER_LEN];
    FillQuestion(query);
    assert query[..HEADER_LEN] == header;
    assert query[..] == query[..HEADER_LEN] + query[HEADER_LEN..];
  }

  datatype ResponseError =
    | Truncated | TransactionId | NotResponse | Opcode | TruncatedResponse
    | ResponseCode | QuestionCount | Question | NoAnswers

  datatype Validation = Valid(answerCount: u16) | Invalid(error: ResponseError)

  /** `validate_response`: the checks in their order. A mask test on the flags is written
      as the division and remainder that select the same bits. */
  function ValidateResponse(response: seq<u8>, transactionId: u16): Validation {
    if |response| < QUERY_LEN then Invalid(Truncated)
    else if Word(response[0], response[1]) != transactionId then Invalid(TransactionId)
    else
      var flags := Word(response[2], response[3]);
      if flags / 0x8000 == 0 then Invalid(NotResponse)
      else if flags / 0x800 % 16 != 0 then Invalid(Opcode)
      else if flags / 0x200 % 2 != 0 then Invalid(TruncatedResponse)
      else if flags % 16 != 0 then Invalid(ResponseCode)
      else if Word(response[4], response[5]) != 1 then Invalid(QuestionCount)
      else if response[HEADER_LEN..QUERY_LEN] != Query(transactionId)[HEADER_LEN..QUERY_LEN] then Invalid(Question)
      else if Word(response[6], response[7]) == 0 then Invalid(NoAnswers)
      else Valid(Word(response[6], response[7]))
  }

  // ---- The header of RFC 1035 -----------------------------------------------

  datatype Header = Header(
    id: u16, qr: u8, opcode: u8, aa: u8, tc: u8, rd: u8, ra: u8, z: u8, rcode: u8,
    qdcount: u16, ancount: u16, nscount: u16, arcount: u16)

  /** The header fields, bit by bit from the left. */
  function ParseHeader(message: seq<u8>): Header
    requires |message| >= HEADER_LEN
  {
    var b2, b3 := message[2], message[3];
    Header(Word(message[0], message[1]),
           b2 / 128, b2 / 8 % 16, b2 / 4 % 2, b2 / 2 % 2, b2 % 2,
           b3 / 128, b3 / 16 % 8, b3 % 16,
           Word(message[4], message[5]), Word(message[6], message[7]),
           Word(message[8], message[9]), Word(message[10], message[11]))
  }

  /** The fields are the header, bit for bit. */
  lemma HeaderHoldsItsFields(message: seq<u8>)
    requires |message| >= HEADER_LEN
    ensures var h := ParseHeader(message);
            && h.qr < 2 && h.opcode < 16 && h.aa < 2 && h.tc < 2 && h.rd < 2
            && h.ra < 2 && h.z < 8 && h.rcode < 16
            && message[2] == 128 * h.qr as int + 8 * h.opcode as int + 4 * h.aa as int + 2 * h.tc as int + h.rd as int
            && message[3] == 128 * h.ra as int + 16 * h.z as int + h.rcode as int
  {
    SecondByte(message[2]);
    ThirdByte(message[3]);
  }

  lemma SecondByte(b: u8)
    ensures b == 128 * (b / 128) + 8 * (b / 8 % 16) + 4 * (b / 4 % 2) + 2 * (b / 2 % 2) + b % 2
  {
    var half, quarter, eighth := b / 2, b / 4, b / 8;
    assert b == 2 * half + b % 2;
    assert half == 2 * quarter + half % 2;
    assert quarter == 2 * eighth + quarter % 2;
    assert eighth == 16 * (b / 128) + eighth % 16;
  }

  lemma ThirdByte(b: u8)
    ensures b == 128 * (b / 128) + 16 * (b / 16 % 8) + b % 16
  {
    var high := b / 16;
    assert b == 16 * high + b % 16;
    assert high == 8 * (b / 128) + high % 8;
  }

  /** The labels of a domain name, each after its length, up to the zero that ends it. */
  function Labels(name: seq<u8>): Option<seq<seq<u8>>> {
    if name == [] then None
    else if name[0] == 0 then (if |name| == 1 then Some([]) else None)
    else if |name| < 1 + name[0] as int then None
    else
      var rest := Labels(name[1 + name[0]..]);
      if rest.None? then None else Some([name[1..1 + name[0]]] + rest.value)
  }

  /** The query is one question with recursion desired: no response, operation 0, no other
      flag, and no records. */
  lemma QueryIsOneQuestion(transactionId: u16)
    ensures ParseHeader(Query(transactionId)) == Header(transactionId, 0, 0, 0, 0, 1, 0, 0, 0, 1, 0, 0, 0)
  {
    var query := Query(transactionId);
    assert query[0] == transactionId / 256 && query[1] == transactionId % 256;
    assert query[2] == 1 && query[3] == 0 && query[4] == 0 && query[5] == 1;
    assert query[6] == 0 && query[7] == 0 && query[8] == 0 && query[9] == 0 && query[10] == 0 && query[11] == 0;
  }

  const EXAMPLE: seq<u8> := ['e' as int, 'x' as int, 'a' as int, 'm' as int, 'p' as int, 'l' as int, 'e' as int]
  const COM: seq<u8> := ['c' as int, 'o' as int, 'm' as int]

  lemma NameIsExampleCom()
    ensures Labels(QUERY_NAME) == Some([EXAMPLE, COM])
  {
    var name := QUERY_NAME;
    var com := name[8..];
    assert com == [3, 99, 111, 109, 0] && com[4..] == [0];
    assert Labels([0]) == Some([]);
    assert com[1..4] == COM && com[1 + com[0]..] == [0];
    assert [COM] + [] == [COM];
    assert Labels(com) == Some([com[1..4]] + []);
    assert Labels(com) == Some([COM]);
    assert name[1..8] == EXAMPLE && name[1 + name[0]..] == com;
    assert [EXAMPLE] + [COM] == [EXAMPLE, COM];
  }

  /** It asks for the address (type 1) of example.com in the Internet (class 1), and for
      nothing behind that. */
  lemma QueryAsksForExampleCom(transactionId: u16)
    ensures var question := Query(transactionId)[HEADER_LEN..];
            && |question| == 17 && Labels(question[..13]) == Some([EXAMPLE, COM])
            && Word(question[13], question[14]) == 1 && Word(question[15], question[16]) == 1
  {
    PartsOfQuery(transactionId);
    var question := Query(transactionId)[HEADER_LEN..];
    assert question == QUESTION;
    assert question[..13] == QUERY_NAME;
    NameIsExampleCom();
  }

  /** A complete, successful, untruncated answer to a standard query with this id and
      exactly the question that was asked. */
  predicate AnswersQuery(response: seq<u8>, transactionId: u16) {
    && |response| >= QUERY_LEN
    && (var h := ParseHeader(response);
        && h.id == transactionId && h.qr == 1 && h.opcode == 0 && h.tc == 0 && h.rcode == 0
        && h.qdcount == 1 && h.ancount != 0)
    && response[HEADER_LEN..QUERY_LEN] == QUESTION
  }

  lemma FlagFields(b2: u8, b3: u8)
    ensures var flags := Word(b2, b3);
            && (flags / 0x8000 == 0 <==> b2 / 128 != 1)
            && flags / 0x800 % 16 == b2 / 8 % 16
            && flags / 0x200 % 2 == b2 / 2 % 2
            && flags % 16 == b3 % 16
  {
  }

  /** A response is accepted exactly when it answers the query, with its answer count. */
  lemma AcceptsExactlyAnswers(response: seq<u8>, transactionId: u16)
    ensures ValidateResponse(response, transactionId).Valid? <==> AnswersQuery(response, transactionId)
    ensures AnswersQuery(response, transactionId) ==>
              ValidateResponse(response, transactionId) == Valid(ParseHeader(response).ancount)
  {
    if |response| >= QUERY_LEN {
      FlagFields(response[2], response[3]);
    }
    PartsOfQuery(transactionId);
  }

  /** A response is accepted for one transaction at most. */
  lemma AcceptedForOneId(response: seq<u8>, a: u16, b: u16)
    requires ValidateResponse(response, a).Valid? && ValidateResponse(response, b).Valid?
    ensures a == b
  {
  }

  /** What a server makes of a query: the header with the response bit, its flags and an
      answer count, the question unchanged, and the answers. */
  function Answer(query: seq<u8>, flags: u16, answers: u16, records: seq<u8>): seq<u8>
    requires |query| == QUERY_LEN
  {
    query[..2] + BigEndian(flags) + query[4..6] + BigEndian(answers) + query[8..] + records
  }

  /** An answer to a query is accepted for that query, and for that query only, exactly
      when its flags say a successful complete response and it has answers. */
  lemma AnswerIsAccepted(
    id: u16, other: u16, flags: u16, answers: u16, records: seq<u8>)
    ensures |Query(id)| == QUERY_LEN
    ensures ValidateResponse(Answer(Query(id), flags, answers, records), other).Valid?
            <==> id == other && answers != 0
                 && flags / 0x8000 == 1 && flags / 0x800 % 16 == 0 && flags / 0x200 % 2 == 0 && flags % 16 == 0
  {
    var response := Answer(Query(id), flags, answers, records);
    assert Word(response[0], response[1]) == id;
    assert Word(response[2], response[3]) == flags;
    assert Word(response[4], response[5]) == 1;
    assert Word(response[6], response[7]) == answers;
    assert response[HEADER_LEN..QUERY_LEN] == Query(other)[HEADER_LEN..QUERY_LEN];
  }
}
