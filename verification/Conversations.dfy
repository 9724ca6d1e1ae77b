/**
  A conversation over its whole life (conversation.py, `create_conversation`, `rotate_prompt`,
  `take_turn`): the prompt, its hash and epoch, the history, the turn counter and the budget, turn
  after turn. The hash of a prompt with the conversation's tools is an arbitrary function of the text.
 */
module Conversations {
  import opened Options
  import opened Transcript
  import opened HistoryRepair
  import opened TurnModel
  import opened TurnLoop
  import opened TurnSafety

  type Hash = string -> string

  datatype Recipe = Recipe(stablePrompt: string, catalog: string)

  datatype Template = Template(recipe: Recipe, pending: Option<Recipe>)

  datatype Conversation = Conversation(
    systemPrompt: string,
    promptHash: string,
    epoch: nat,
    stableLength: nat,
    messages: History,
    nextTurn: nat,
    budget: Budget)

  /** Parts that are not empty, two newlines between them. */
  function Compose(first: string, second: string): string {
    if first == "" then second else if second == "" then first else first + "\n\n" + second
  }

  function Create(t: Template, hash: Hash, systemMessage: string, budget: Budget): (Conversation, Template) {
    var recipe := if t.pending.Some? then t.pending.value else t.recipe;
    var prompt := Compose(recipe.stablePrompt, Compose(systemMessage, recipe.catalog));
    (Conversation(prompt, hash(prompt), 0, |recipe.stablePrompt|, [], 0, budget), Template(recipe, None))
  }

  function DeferInvalidation(t: Template, recipe: Recipe): Template {
    t.(pending := Some(recipe))
  }

  function StablePrompt(c: Conversation): string
    requires c.stableLength <= |c.systemPrompt|
  {
    c.systemPrompt[..c.stableLength]
  }

  /** What every turn relies on: the hash is the prompt's, the stable part is inside it, and the
      history is one a turn may start on. */
  ghost predicate Consistent(hash: Hash, c: Conversation) {
    c.promptHash == hash(c.systemPrompt) && c.stableLength <= |c.systemPrompt| && WellFormed(c.messages)
  }

  function RotatePrompt(hash: Hash, c: Conversation, prompt: string): Result<Conversation>
    requires c.stableLength <= |c.systemPrompt|
  {
    if StablePrompt(c) <= prompt then Ok(c.(systemPrompt := prompt, promptHash := hash(prompt), epoch := c.epoch + 1))
    else Err("a rotated system prompt must preserve the stable prefix")
  }

  /** The prompt a turn leaves: the last one a compression set. */
  function PromptAfter(prompt: string, log: Log): string {
    if log == [] then prompt
    else match log[|log| - 1]
      case Compressed(Compression(_, Some(next)), _) => next
      case _ => PromptAfter(prompt, log[..|log| - 1])
  }

  /** A new conversation is consistent, speaks with its recipe's voice, and uses up what was deferred;
      the next one from the same template gets the same recipe. */
  lemma {:induction false} CreatedConsistent(t: Template, hash: Hash, systemMessage: string, budget: Budget, recipe: Recipe)
    ensures var (c, next) := Create(DeferInvalidation(t, recipe), hash, systemMessage, budget);
            && Consistent(hash, c) && StablePrompt(c) == recipe.stablePrompt && next == Template(recipe, None)
            && Create(next, hash, systemMessage, budget) == (c, next)
  {
    var (c, next) := Create(DeferInvalidation(t, recipe), hash, systemMessage, budget);
    var rest := Compose(systemMessage, recipe.catalog);
    assert c.systemPrompt[..|recipe.stablePrompt|] == recipe.stablePrompt;
  }

  // What a caller brings to one turn.
  datatype Request = Request(input: string, tools: set<string>, keepTail: int, capsReadable: bool, expired: bool, world: World)

  function ConfigOf(hash: Hash, c: Conversation, r: Request): Config {
    Config(r.tools, r.keepTail, hash(c.systemPrompt) == c.promptHash, r.capsReadable, r.expired)
  }

  /** `next` is what one turn of `c` can leave: the history a sound log stands for, the prompt it set
      and, if that is another one, the next epoch. */
  ghost predicate TurnLeads(hash: Hash, c: Conversation, r: Request, log: Log, next: Conversation) {
    var prompt := PromptAfter(c.systemPrompt, log);
    && InTurn(ConfigOf(hash, c, r), r.world, Opening(c.messages, r.input), next.messages, log)
    && c.stableLength <= |c.systemPrompt| && StablePrompt(c) <= prompt
    && next.systemPrompt == prompt && next.stableLength == c.stableLength
    && next.promptHash == (if prompt == c.systemPrompt then c.promptHash else hash(prompt))
    && next.epoch == (if prompt == c.systemPrompt then c.epoch else c.epoch + 1)
    && next.nextTurn == c.nextTurn + 1
    && next.budget.maxTotal == c.budget.maxTotal && c.budget.used <= next.budget.used
  }

  /** A turn of a consistent conversation never drifts. It fails if and only if an error the loop does
      not catch got out or a compression took the stable prefix away; otherwise it leaves a
      consistent conversation. */
  method TakeTurn(hash: Hash, c: Conversation, r: Request) returns (next: Result<Conversation>, outcome: Outcome, log: Log)
    requires Consistent(hash, c)
    ensures !outcome.Drifted?
    ensures WholeLog(ConfigOf(hash, c, r), r.world, Opening(c.messages, r.input), log)
    ensures outcome.Escaped? <==> Escapes(ConfigOf(hash, c, r), log)
    ensures next.Ok? <==> outcome.Ended? && StablePrompt(c) <= PromptAfter(c.systemPrompt, log)
    ensures next.Ok? ==> TurnLeads(hash, c, r, log, next.value) && Consistent(hash, next.value)
    ensures next.Ok? ==> StablePrompt(next.value) == StablePrompt(c)
  {
    hide InTurn, WellFormed, Opening, FinalText, Verdict, ReportedCalls, CutShort, NoSummary, Repaired, Pending;
    hide WholeLog, Escapes, FirstPass;
    var messages, budget;
    outcome, messages, budget, log := RunTurn(ConfigOf(hash, c, r), r.world, c.messages, r.input, c.budget);
    if outcome.Escaped? {
      return Err("an error left the turn"), outcome, log;
    }
    TurnKeepsForm(ConfigOf(hash, c, r), r.world, Opening(c.messages, r.input), messages, log);
    var prompt := PromptAfter(c.systemPrompt, log);
    var updated := c;
    if prompt != c.systemPrompt {
      var rotated := RotatePrompt(hash, c, prompt);
      if rotated.Err? {
        return Err(rotated.error), outcome, log;
      }
      updated := rotated.value;
    }
    next := Ok(updated.(messages := messages, nextTurn := c.nextTurn + 1, budget := budget));
    assert StablePrompt(c) <= c.systemPrompt;
  }

  lemma {:induction false} TurnKeepsForm(cfg: Config, world: World, start: History, messages: History, log: Log)
    requires InTurn(cfg, world, start, messages, log)
    ensures WellFormed(messages)
  {
    hide WellFormed, Justified;
  }

  // One turn of a conversation's life.
  datatype Turn = Turn(request: Request, log: Log)

  /** `life` is what conversations a run of turns went through. */
  ghost predicate Lived(hash: Hash, life: seq<Conversation>, turns: seq<Turn>) {
    && |life| == |turns| + 1 && Consistent(hash, life[0])
    && forall i :: 0 <= i < |turns| ==> TurnLeads(hash, life[i], turns[i].request, turns[i].log, life[i + 1])
  }

  /** How many of the first `i` turns left another prompt than they found. */
  ghost function PromptChanges(life: seq<Conversation>, i: nat): nat
    requires i < |life|
  {
    if i == 0 then 0
    else PromptChanges(life, i - 1) + (if life[i].systemPrompt == life[i - 1].systemPrompt then 0 else 1)
  }

  /** Over any number of turns, against any worlds: the conversation is consistent before every turn,
      so none of them drifts; every turn opens on a history with nothing pending; the voice never
      changes; turn numbers are consecutive, the epoch counts the turns that changed the prompt,
      and the budget is only ever used up. */
  lemma {:induction false} LifeIsConsistent(hash: Hash, life: seq<Conversation>, turns: seq<Turn>, i: nat)
    requires Lived(hash, life, turns) && i < |life|
    ensures Consistent(hash, life[i]) && StablePrompt(life[i]) == StablePrompt(life[0])
    ensures i < |turns| ==> ConfigOf(hash, life[i], turns[i].request).promptMatches
    ensures forall input: string ::
              WellFormed(Opening(life[i].messages, input)) && Pending(Opening(life[i].messages, input)) == {}
    ensures life[i].nextTurn == life[0].nextTurn + i
    ensures life[i].epoch == life[0].epoch + PromptChanges(life, i)
    ensures life[0].budget.used <= life[i].budget.used && life[i].budget.maxTotal == life[0].budget.maxTotal
    decreases i
  {
    hide InTurn, WellFormed, Opening, Pending, PromptAfter;
    if i == 0 {
    } else {
      LifeIsConsistent(hash, life, turns, i - 1);
      var c, t := life[i - 1], turns[i - 1];
      assert TurnLeads(hash, c, t.request, t.log, life[i - 1 + 1]);
      TurnKeepsForm(ConfigOf(hash, c, t.request), t.request.world, Opening(c.messages, t.request.input), life[i].messages, t.log);
    }
    forall input: string
      ensures WellFormed(Opening(life[i].messages, input)) && Pending(Opening(life[i].messages, input)) == {}
    {
      OpeningWellFormed(life[i].messages, input);
    }
  }

  /** Turns without compaction never lose a message: every later history extends every earlier one. */
  lemma {:induction false} LifeGrows(hash: Hash, life: seq<Conversation>, turns: seq<Turn>, i: nat, j: nat)
    requires Lived(hash, life, turns) && i <= j < |life|
    requires forall k :: i <= k < j ==> NoSummary(turns[k].log)
    ensures life[i].messages <= life[j].messages
    decreases j
  {
    hide WellFormed, Pending, Justified, Consistent, PromptAfter, NoSummary, TurnLeads, Opening, InTurn, StablePrompt;
    if i == j {
    } else {
      LifeGrows(hash, life, turns, i, j - 1);
      LifeIsConsistent(hash, life, turns, j - 1);
      var c, t := life[j - 1], turns[j - 1];
      assert TurnLeads(hash, c, t.request, t.log, life[j - 1 + 1]);
      OneTurnGrows(hash, c, t, life[j]);
    }
  }

  lemma {:induction false} OneTurnGrows(hash: Hash, c: Conversation, t: Turn, next: Conversation)
    requires Consistent(hash, c) && TurnLeads(hash, c, t.request, t.log, next) && NoSummary(t.log)
    ensures c.messages <= next.messages
  {
    hide WellFormed, Pending, Justified, Sound, PromptAfter, NoSummary, Repaired;
    var start := Opening(c.messages, t.request.input);
    RepairCloses(c.messages);
    HistoryGrows(start, t.log, 0, |t.log|);
    assert t.log[..|t.log|] == t.log && t.log[..0] == [];
    assert Replay(start, []) == start;
  }
}
