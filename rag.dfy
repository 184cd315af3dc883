/** The retrieval-augmented chat service (server/src/services/rag.js): chat
    sessions kept in memory, retrieval of the documents a question may be
    about, the prompt built from them, the bounded chat history, and the
    sources answered beside the reply. */
module Rag {
  import opened Common
  import opened Documents
  import opened Database
  import opened Gemini
  import Embeddings

  // ---------------------------------------------------------------------------
  // Retrieval

  const DefaultRelevantLimit: nat := 3

  /** The `$text` query over the documents a user may see, best text score
      first, at most `limit` of them (`limit(0)` meaning no limit). The text
      index's matching and scoring are given as `matches` and `score`. */
  function TextSearch(docs: seq<Document>, userId: UserId, query: string, limit: nat,
                      matches: (Document, string) -> bool,
                      score: (Document, string) -> real): (r: seq<Document>)
    ensures limit > 0 ==> |r| <= limit
    ensures forall i :: 0 <= i < |r| ==>
      (r[i].owner == userId || r[i].isPublic) && matches(r[i], query) && r[i] in docs
    ensures forall i, j :: 0 <= i < j < |r| ==> score(r[i], query) >= score(r[j], query)
  {
    var candidates := Candidates(docs, userId, query, matches);
    TopByScore(candidates, query, score, limit)
  }

  /** The documents the user may see that the text index matches. */
  function Candidates(docs: seq<Document>, userId: UserId, query: string,
                      matches: (Document, string) -> bool): (r: seq<Document>)
    ensures forall d :: d in r <==>
      d in docs && (d.owner == userId || d.isPublic) && matches(d, query)
  {
    var visible := Embeddings.Visible(docs, userId);
    var r := Filter(visible, (d: Document) => matches(d, query));
    forall d | d in r
      ensures (d.owner == userId || d.isPublic) && matches(d, query) && d in docs
    {
      var i :| 0 <= i < |r| && r[i] == d;
      var j :| 0 <= j < |visible| && visible[j] == d;
    }
    forall d | d in docs && (d.owner == userId || d.isPublic) && matches(d, query)
      ensures d in r
    {
      var j :| 0 <= j < |visible| && visible[j] == d;
    }
    r
  }

  /** `.sort({ score: { $meta: 'textScore' } }).limit(limit)` over the
      candidates. */
  function TopByScore(candidates: seq<Document>, query: string,
                      score: (Document, string) -> real, limit: nat): (r: seq<Document>)
    ensures limit > 0 ==> |r| <= limit
    ensures forall i :: 0 <= i < |r| ==> r[i] in candidates
    ensures forall i, j :: 0 <= i < j < |r| ==> score(r[i], query) >= score(r[j], query)
  {
    var scored := ScoreEach(candidates, query, score);
    var ranked := Best(scored, limit);
    RankedDocs(ranked, scored, candidates, query, score)
  }

  /** Each candidate with its text score. */
  function ScoreEach(candidates: seq<Document>, query: string,
                     score: (Document, string) -> real): (r: seq<Embeddings.Scored>)
    ensures |r| == |candidates|
    ensures forall i :: 0 <= i < |r| ==>
      r[i] == Embeddings.Scored(candidates[i], score(candidates[i], query))
  {
    seq(|candidates|, i requires 0 <= i < |candidates| =>
          Embeddings.Scored(candidates[i], score(candidates[i], query)))
  }

  /** The best `limit` entries, best first. */
  function Best(scored: seq<Embeddings.Scored>, limit: nat): (r: seq<Embeddings.Scored>)
    ensures limit > 0 ==> |r| <= limit
    ensures multiset(r) <= multiset(scored)
    ensures Embeddings.NonIncreasing(r)
  {
    var sorted := Embeddings.SortDesc(scored);
    var r := TakeLimit(sorted, limit);
    assert r == sorted[..|r|];
    Embeddings.PrefixOfSorted(sorted, |r|);
    r
  }

  /** `Best` keeps `limit` entries (all of them when there are fewer, or
      when `limit` is 0), and every entry it drops scores no higher than
      every entry it keeps. */
  lemma BestIsTop(scored: seq<Embeddings.Scored>, limit: nat)
    ensures |Best(scored, limit)| == if limit == 0 || |scored| <= limit then |scored| else limit
    ensures var r := Best(scored, limit);
      forall x, i :: x in multiset(scored) - multiset(r) && 0 <= i < |r| ==>
        x.similarity <= r[i].similarity
  {
    var sorted := Embeddings.SortDesc(scored);
    var r := Best(scored, limit);
    BestIsPrefix(scored, limit);
    DroppedIsTail(sorted, |r|);
    TailBelowHead(sorted, |r|);
  }

  /** `Best` is the first min(limit, len) entries of the sorted input. */
  lemma BestIsPrefix(scored: seq<Embeddings.Scored>, limit: nat)
    ensures var sorted := Embeddings.SortDesc(scored);
      var r := Best(scored, limit);
      && |sorted| == |scored|
      && |r| == (if limit == 0 || |scored| <= limit then |scored| else limit)
      && r == sorted[..|r|]
  {
    var sorted := Embeddings.SortDesc(scored);
    assert |sorted| == |scored| by {
      assert |multiset(sorted)| == |multiset(scored)|;
    }
  }

  /** Taking the first n entries away leaves the rest of the list. */
  lemma DroppedIsTail(s: seq<Embeddings.Scored>, n: nat)
    requires n <= |s|
    ensures multiset(s) - multiset(s[..n]) == multiset(s[n..])
  {
    assert s == s[..n] + s[n..];
  }

  /** In a list sorted by descending similarity, nothing after position n
      scores above anything before it. */
  lemma TailBelowHead(sorted: seq<Embeddings.Scored>, n: nat)
    requires Embeddings.NonIncreasing(sorted) && n <= |sorted|
    ensures forall x, i :: x in multiset(sorted[n..]) && 0 <= i < n ==>
      x.similarity <= sorted[..n][i].similarity
  {
    forall x, i | x in multiset(sorted[n..]) && 0 <= i < n
      ensures x.similarity <= sorted[..n][i].similarity
    {
      var j :| 0 <= j < |sorted[n..]| && sorted[n..][j] == x;
      assert sorted[n + j] == x;
    }
  }

  /** The documents of a ranking whose every entry is one of `candidates`,
      scored by `score`. */
  function RankedDocs(ranked: seq<Embeddings.Scored>, scored: seq<Embeddings.Scored>,
                      candidates: seq<Document>, query: string,
                      score: (Document, string) -> real): (r: seq<Document>)
    requires multiset(ranked) <= multiset(scored)
    requires |scored| == |candidates|
    requires forall i :: 0 <= i < |scored| ==>
      scored[i] == Embeddings.Scored(candidates[i], score(candidates[i], query))
    requires Embeddings.NonIncreasing(ranked)
    ensures |r| == |ranked|
    ensures forall i :: 0 <= i < |r| ==> r[i] == ranked[i].doc && r[i] in candidates
    ensures forall i :: 0 <= i < |r| ==> ranked[i].similarity == score(r[i], query)
    ensures forall i, j :: 0 <= i < j < |r| ==> score(r[i], query) >= score(r[j], query)
  {
    var r := seq(|ranked|, i requires 0 <= i < |ranked| => ranked[i].doc);
    forall i | 0 <= i < |ranked|
      ensures r[i] in candidates && ranked[i].similarity == score(r[i], query)
    {
      assert ranked[i] in multiset(ranked);
      assert ranked[i] in multiset(scored);
      var j :| 0 <= j < |scored| && scored[j] == ranked[i];
    }
    r
  }

  /** The text score ranking returns `limit` candidates (all of them when
      there are fewer, or when `limit` is 0), and no candidate it leaves
      out scores above one it returns. */
  lemma TopByScoreIsTop(candidates: seq<Document>, query: string,
                        score: (Document, string) -> real, limit: nat)
    ensures var r := TopByScore(candidates, query, score, limit);
      && |r| == (if limit == 0 || |candidates| <= limit then |candidates| else limit)
      && forall c, i :: c in candidates && c !in r && 0 <= i < |r| ==>
           score(c, query) <= score(r[i], query)
  {
    var scored := ScoreEach(candidates, query, score);
    var ranked := Best(scored, limit);
    var r := TopByScore(candidates, query, score, limit);
    assert r == RankedDocs(ranked, scored, candidates, query, score);
    BestIsTop(scored, limit);
    forall c, i | c in candidates && c !in r && 0 <= i < |r|
      ensures score(c, query) <= score(r[i], query)
    {
      var k :| 0 <= k < |candidates| && candidates[k] == c;
      var x := scored[k];
      DocNotKept(ranked, r, x);
      assert x in multiset(scored) - multiset(ranked);
      assert x.similarity <= ranked[i].similarity;
    }
  }

  /** An entry whose document the projection does not list is not ranked. */
  lemma DocNotKept(ranked: seq<Embeddings.Scored>, r: seq<Document>, x: Embeddings.Scored)
    requires |r| == |ranked| && forall i :: 0 <= i < |r| ==> r[i] == ranked[i].doc
    requires x.doc !in r
    ensures x !in multiset(ranked)
  {
    forall m | 0 <= m < |ranked|
      ensures ranked[m] != x
    {
      assert r[m] == ranked[m].doc;
    }
  }

  /** The `$text` query returns the best-scored visible matches: `limit` of
      them (all when there are fewer, or when `limit` is 0), and every
      visible match it leaves out scores no higher than every one returned. */
  lemma TextSearchIsTop(docs: seq<Document>, userId: UserId, query: string, limit: nat,
                        matches: (Document, string) -> bool,
                        score: (Document, string) -> real)
    ensures var c := Candidates(docs, userId, query, matches);
      var r := TextSearch(docs, userId, query, limit, matches, score);
      && |r| == (if limit == 0 || |c| <= limit then |c| else limit)
      && forall d, i ::
           (d in docs && (d.owner == userId || d.isPublic) && matches(d, query) && d !in r && 0 <= i < |r|)
           ==> score(d, query) <= score(r[i], query)
  {
    TopByScoreIsTop(Candidates(docs, userId, query, matches), query, score, limit);
  }

  // ---------------------------------------------------------------------------
  // Prompt

  /** `Document: <title>\n<first 500 characters>...` */
  function ContextBlock(d: Document): (b: string)
    ensures |b| <= 10 + |d.title| + 1 + 500 + 3
  {
    "Document: " + d.title + "\n" + Take(d.content, 500) + "..."
  }

  function FormatContext(docs: seq<Document>): string {
    Join(seq(|docs|, i requires 0 <= i < |docs| => ContextBlock(docs[i])), "\n\n")
  }

  /** A block starts with the title line and carries a prefix of the content
      of at most 500 characters, the whole content when it is that short. */
  lemma ContextBlockShape(d: Document)
    ensures var excerpt := Take(d.content, 500);
      && ContextBlock(d) == "Document: " + d.title + "\n" + excerpt + "..."
      && excerpt <= d.content
      && (|d.content| <= 500 ==> excerpt == d.content)
      && |excerpt| == if |d.content| <= 500 then |d.content| else 500
  {
  }

  /** The context is the blocks in retrieval order, one blank line between
      each two. */
  lemma FormatContextSnoc(docs: seq<Document>, d: Document)
    ensures FormatContext(docs + [d]) ==
            if docs == [] then ContextBlock(d) else FormatContext(docs) + "\n\n" + ContextBlock(d)
  {
    var blocks := seq(|docs|, i requires 0 <= i < |docs| => ContextBlock(docs[i]));
    var blocks' := seq(|docs + [d]|, i requires 0 <= i < |docs + [d]| => ContextBlock((docs + [d])[i]));
    assert blocks' == blocks + [ContextBlock(d)];
    if docs != [] {
      JoinSnoc(blocks, ContextBlock(d), "\n\n");
    }
  }

  const Preamble: string :=
    "You are a helpful assistant. Use the following context to answer questions. If you don't know the answer, say so.\n\nContext:\n"

  function SystemPrompt(context: string): string {
    Preamble + context
  }

  /** Reads the context back out of a system prompt. */
  function ContextOfPrompt(prompt: string): string {
    if |prompt| >= |Preamble| && prompt[..|Preamble|] == Preamble then prompt[|Preamble|..] else ""
  }

  /** The system prompt is the fixed instruction followed by the context, and
      the context can be read back from it. */
  lemma SystemPromptRoundTrip(context: string)
    ensures Preamble <= SystemPrompt(context)
    ensures ContextOfPrompt(SystemPrompt(context)) == context
  {
    assert SystemPrompt(context)[..|Preamble|] == Preamble;
  }

  function SystemMessage(docs: seq<Document>): Message {
    Message(System, SystemPrompt(FormatContext(docs)))
  }

  /** `[systemMessage, ...session.messages]` once the user message is pushed. */
  function ChatMessages(history: seq<Message>, docs: seq<Document>, content: string): seq<Message> {
    [SystemMessage(docs)] + history + [Message(User, content)]
  }

  /** What the provider is given: the system message and the previous
      history as chat history, and the user's text as the message sent. */
  lemma ChatMessagesSplit(history: seq<Message>, docs: seq<Document>, content: string)
    ensures var m := ChatMessages(history, docs, content);
      && m != []
      && m[..|m| - 1] == [SystemMessage(docs)] + history
      && m[|m| - 1].content == content
      && m[0].role == System
  {
  }

  // ---------------------------------------------------------------------------
  // History

  const MaxHistory: nat := 10

  /** `messages.slice(-n)` when there are more than n messages. */
  function KeepLast<T>(messages: seq<T>, n: nat): (r: seq<T>)
    ensures |r| == if |messages| > n then n else |messages|
    ensures r == messages[|messages| - |r|..]
  {
    if |messages| > n then messages[|messages| - n..] else messages
  }

  /** After a successful turn the history is at most ten messages long and
      ends with the question and its answer. */
  lemma HistoryAfterReply(history: seq<Message>, question: Message, answer: Message)
    ensures var h := KeepLast(history + [question, answer], MaxHistory);
      && |h| <= MaxHistory
      && h[|h| - 2..] == [question, answer]
      && (|history| + 2 <= MaxHistory ==> h == history + [question, answer])
  {
    var full := history + [question, answer];
    var h := KeepLast(full, MaxHistory);
    assert h[|h| - 2..] == full[|full| - 2..];
  }

  /** Trimming twice to the same bound trims once. */
  lemma KeepLastIdempotent<T>(messages: seq<T>, n: nat)
    ensures KeepLast(KeepLast(messages, n), n) == KeepLast(messages, n)
  {
  }

  // ---------------------------------------------------------------------------
  // Sources

  datatype SourceRef = SourceRef(id: DocId, title: string, snippet: string)

  function SourceOf(d: Document): SourceRef {
    SourceRef(d.id, d.title, Take(d.content, 150) + "...")
  }

  function Sources(docs: seq<Document>): (r: seq<SourceRef>)
    ensures |r| == |docs|
    ensures forall i :: 0 <= i < |r| ==> r[i] == SourceOf(docs[i])
  {
    seq(|docs|, i requires 0 <= i < |docs| => SourceOf(docs[i]))
  }

  /** Each source names its document and quotes at most its first 150
      characters, followed by an ellipsis. */
  lemma SourceShape(d: Document)
    ensures SourceOf(d).id == d.id && SourceOf(d).title == d.title
    ensures var s := SourceOf(d).snippet;
      && |s| >= 3 && s[|s| - 3..] == "..."
      && s[..|s| - 3] <= d.content && |s| <= 153
  {
    var s := SourceOf(d).snippet;
    assert s[..|s| - 3] == Take(d.content, 150);
  }

  // ---------------------------------------------------------------------------
  // The service

  datatype Session = Session(messages: seq<Message>, context: seq<string>, createdAt: int)

  datatype UserMessage = UserMessage(content: string, userId: UserId)

  datatype ChatReply = ChatReply(response: string, sources: seq<SourceRef>)

  /** What `getRelevantDocuments(query, userId, limit)` resolves to: the
      query is embedded first (the vector is unused) and a failed embedding
      answers []; otherwise the text search. */
  function Relevant(docs: seq<Document>, embedFn: string -> Option<Vector>, query: string,
                    userId: UserId, limit: nat, matches: (Document, string) -> bool,
                    score: (Document, string) -> real): (r: seq<Document>)
    ensures embedFn(query).None? ==> r == []
    ensures embedFn(query).Some? ==> r == TextSearch(docs, userId, query, limit, matches, score)
    ensures limit > 0 ==> |r| <= limit
    ensures forall i :: 0 <= i < |r| ==> (r[i].owner == userId || r[i].isPublic) && r[i] in docs
  {
    if embedFn(query).None? then []
    else TextSearch(docs, userId, query, limit, matches, score)
  }

  /** The request one turn sends to the provider. */
  function TurnCall(history: seq<Message>, docs: seq<Document>, content: string): ChatCall {
    ChatCall([SystemMessage(docs)] + history, content)
  }

  /** The reply of one turn and the history it leaves, given the provider's
      answer (None = the provider failed). The question stays in the history
      either way; a successful turn adds the answer and keeps the last ten. */
  function Turn(history: seq<Message>, docs: seq<Document>, content: string,
                answer: Option<string>): (out: (Result<ChatReply>, seq<Message>))
    ensures answer.None? ==>
      out.0 == Err("Failed to generate response") && out.1 == history + [Message(User, content)]
    ensures answer.Some? ==>
      var full := history + [Message(User, content), Message(Assistant, answer.value)];
      && out.0 == Ok(ChatReply(answer.value, Sources(docs)))
      && 2 <= |out.1| <= MaxHistory && |out.1| <= |full|
      && out.1 == full[|full| - |out.1|..]
      && out.1[|out.1| - 2..] == [Message(User, content), Message(Assistant, answer.value)]
      && out.1 == KeepLast(full, MaxHistory)
  {
    var asked := history + [Message(User, content)];
    match answer
    case None => (Err("Failed to generate response"), asked)
    case Some(text) =>
      HistoryAfterReply(history, Message(User, content), Message(Assistant, text));
      (Ok(ChatReply(text, Sources(docs))), KeepLast(asked + [Message(Assistant, text)], MaxHistory))
  }

  /** The outcome of a turn the provider answered, in the terms `Respond`
      computes it. */
  lemma TurnAnswered(history: seq<Message>, docs: seq<Document>, content: string, text: string)
    ensures Turn(history, docs, content, Some(text)) ==
      (Ok(ChatReply(text, Sources(docs))),
       KeepLast(history + [Message(User, content), Message(Assistant, text)], MaxHistory))
  {
    assert history + [Message(User, content)] + [Message(Assistant, text)]
        == history + [Message(User, content), Message(Assistant, text)];
  }

  /** The trim after a reply: a history longer than ten messages is cut to
      its last ten. */
  method KeepRecent(messages: seq<Message>) returns (kept: seq<Message>)
    ensures kept == KeepLast(messages, MaxHistory)
  {
    kept := messages;
    if |kept| > MaxHistory {
      kept := kept[|kept| - MaxHistory..];
    }
  }

  /** Failed turns are not trimmed: each leaves one more message behind. */
  lemma FailedTurnGrowsHistory(history: seq<Message>, docs: seq<Document>, content: string)
    ensures |Turn(history, docs, content, None).1| == |history| + 1
  {
  }

  class RAGService {
    var sessions: map<string, Session>
    /** Whether the text index matches a document for a search string. */
    const matches: (Document, string) -> bool
    /** The text index's relevance score. */
    const score: (Document, string) -> real

    constructor (matches: (Document, string) -> bool, score: (Document, string) -> real)
      ensures sessions == map[] && this.matches == matches && this.score == score
    {
      sessions := map[];
      this.matches := matches;
      this.score := score;
    }

    /** `createSession()`: the fresh identifier and the clock are given. */
    method CreateSession(sessionId: string, now: int) returns (id: string)
      modifies this`sessions
      ensures id == sessionId
      ensures sessions == old(sessions)[sessionId := Session([], [], now)]
    {
      sessions := sessions[sessionId := Session([], [], now)];
      id := sessionId;
    }

    method GetRelevantDocuments(query: string, userId: UserId, limit: nat,
                                db: Database, gemini: GeminiService) returns (r: seq<Document>)
      requires db.Valid()
      modifies gemini`embedCalls
      ensures gemini.embedCalls == old(gemini.embedCalls) + [query]
      ensures r == Relevant(db.All(), gemini.embedFn, query, userId, limit, matches, score)
    {
      var queryEmbedding := gemini.GenerateEmbedding(query);
      if queryEmbedding.Err? {
        return [];
      }
      r := TextSearch(db.All(), userId, query, limit, matches, score);
    }

    /** `generateResponse(sessionId, userMessage)`: an unknown session is an
        error that touches nothing; otherwise one embedding call, one chat
        call, and the turn. */
    method GenerateResponse(sessionId: string, userMessage: UserMessage,
                            db: Database, gemini: GeminiService) returns (r: Result<ChatReply>)
      requires db.Valid()
      modifies this`sessions, gemini`embedCalls, gemini`chatCalls
      ensures sessionId !in old(sessions) ==>
        && r == Err("Session not found") && sessions == old(sessions)
        && gemini.embedCalls == old(gemini.embedCalls) && gemini.chatCalls == old(gemini.chatCalls)
      ensures sessionId in old(sessions) ==>
        var s := old(sessions)[sessionId];
        var docs := Relevant(db.All(), gemini.embedFn, userMessage.content, userMessage.userId,
                             DefaultRelevantLimit, matches, score);
        var call := TurnCall(s.messages, docs, userMessage.content);
        var turn := Turn(s.messages, docs, userMessage.content, gemini.chatFn(call));
        && gemini.embedCalls == old(gemini.embedCalls) + [userMessage.content]
        && gemini.chatCalls == old(gemini.chatCalls) + [call]
        && r == turn.0
        && sessions == old(sessions)[sessionId := s.(messages := turn.1)]
    {
      if sessionId !in sessions {
        return Err("Session not found");
      }
      var relevantDocs := GetRelevantDocuments(userMessage.content, userMessage.userId,
                                               DefaultRelevantLimit, db, gemini);
      r := Respond(sessionId, relevantDocs, userMessage.content, gemini);
    }

    /** The part of a turn after retrieval: the question joins the session's
        history, the provider is asked, and the answer is recorded. */
    method Respond(sessionId: string, docs: seq<Document>, content: string, gemini: GeminiService)
      returns (r: Result<ChatReply>)
      requires sessionId in sessions
      modifies this`sessions, gemini`chatCalls
      ensures var s := old(sessions)[sessionId];
        var call := TurnCall(s.messages, docs, content);
        var turn := Turn(s.messages, docs, content, gemini.chatFn(call));
        && gemini.chatCalls == old(gemini.chatCalls) + [call]
        && r == turn.0
        && sessions == old(sessions)[sessionId := s.(messages := turn.1)]
    {
      var session := sessions[sessionId];
      var asked := session.messages + [Message(User, content)];
      sessions := sessions[sessionId := session.(messages := asked)];
      var messages := [SystemMessage(docs)] + asked;
      ChatMessagesSplit(session.messages, docs, content);
      assert messages == ChatMessages(session.messages, docs, content);
      ghost var call := TurnCall(session.messages, docs, content);
      assert call == ChatCall(messages[..|messages| - 1], messages[|messages| - 1].content);
      var response := gemini.Chat(messages);
      if response.Err? {
        return Err("Failed to generate response");
      }
      var answered := asked + [Message(Assistant, response.value)];
      assert answered == session.messages + [Message(User, content), Message(Assistant, response.value)];
      var kept := KeepRecent(answered);
      TurnAnswered(session.messages, docs, content, response.value);
      sessions := sessions[sessionId := session.(messages := kept)];
      r := Ok(ChatReply(response.value, Sources(docs)));
    }

    /** `clearSession(sessionId)`: whether there was such a session. */
    method ClearSession(sessionId: string) returns (existed: bool)
      modifies this`sessions
      ensures existed == (sessionId in old(sessions))
      ensures sessions == old(sessions) - {sessionId}
    {
      existed := sessionId in sessions;
      sessions := sessions - {sessionId};
    }
  }
}
