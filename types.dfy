/** The value types of the quiz, mirroring the interfaces of types.ts, and the
    facts about option identifiers that the per-option display relies on. */
module QuizTypes {

  /** A nullable value: TypeScript's `T | null`. */
  datatype Maybe<+T> = Nothing | Just(value: T)

  /** One answer choice of a question. */
  datatype Option = Option(id: string, text: string)

  /** One multiple-choice question. Nothing checks the data that arrives: the
      number of options, the uniqueness of their ids and whether
      `correctOptionId` names one of them are all unconstrained. */
  datatype Question = Question(
    id: int,
    text: string,
    options: seq<Option>,
    correctOptionId: string,
    explanation: string)

  /** Some option of `opts` carries the identifier `id`. */
  predicate HasId(opts: seq<Option>, id: string) {
    exists i :: 0 <= i < |opts| && opts[i].id == id
  }

  /** No two options of `opts` share an identifier. */
  predicate UniqueIds(opts: seq<Option>) {
    forall i, j :: 0 <= i < j < |opts| ==> opts[i].id != opts[j].id
  }

  /** How many options of `opts` carry the identifier `id`. */
  function CountIds(opts: seq<Option>, id: string): (n: nat)
    ensures n <= |opts|
    ensures n > 0 <==> HasId(opts, id)
  {
    if opts == [] then 0
    else
      var rest := CountIds(opts[1..], id);
      assert HasId(opts, id) <==> opts[0].id == id || HasId(opts[1..], id) by {
        if HasId(opts[1..], id) {
          var i :| 0 <= i < |opts[1..]| && opts[1..][i].id == id;
          assert opts[i + 1].id == id;
        }
        if HasId(opts, id) && opts[0].id != id {
          var i :| 0 <= i < |opts| && opts[i].id == id;
          assert opts[1..][i - 1].id == id;
        }
      }
      (if opts[0].id == id then 1 else 0) + rest
  }

  /** With unique identifiers an identifier occurs at most once: exactly once
      when some option carries it, never otherwise. */
  lemma {:induction false} UniqueIdsCountAtMostOne(opts: seq<Option>, id: string)
    requires UniqueIds(opts)
    ensures CountIds(opts, id) == if HasId(opts, id) then 1 else 0
  {
    if opts != [] {
      var tail := opts[1..];
      assert UniqueIds(tail) by {
        forall i, j | 0 <= i < j < |tail| ensures tail[i].id != tail[j].id {
          assert tail[i] == opts[i + 1] && tail[j] == opts[j + 1];
        }
      }
      UniqueIdsCountAtMostOne(tail, id);
      if opts[0].id == id {
        forall i | 0 <= i < |tail| ensures tail[i].id != id {
          assert tail[i] == opts[i + 1];
        }
      }
    }
  }
}
