/** `InMemoryLearningStore`: the saved sentences and the vocabulary, each kept in insertion order. */
module LearningStore {
  import opened Domain
  import opened Seqs

  /** The sentences not marked deleted, in order. */
  function LiveSentences(s: seq<SavedSentence>): seq<SavedSentence> {
    Filter(s, (x: SavedSentence) => !x.deleted)
  }

  /** The vocabulary items not marked deleted, in order. */
  function LiveVocabulary(v: seq<VocabularyItem>): seq<VocabularyItem> {
    Filter(v, (x: VocabularyItem) => !x.deleted)
  }

  /** Adding a sentence adds it to the live ones exactly when it is not deleted, at the end. */
  lemma LiveSentencesAdd(s: seq<SavedSentence>, x: SavedSentence)
    ensures LiveSentences(s + [x]) == LiveSentences(s) + (if x.deleted then [] else [x])
    ensures |LiveSentences(s + [x])| == |LiveSentences(s)| + (if x.deleted then 0 else 1)
  {
    FilterAppend(s, [x], (y: SavedSentence) => !y.deleted);
  }

  lemma LiveVocabularyAdd(v: seq<VocabularyItem>, x: VocabularyItem)
    ensures LiveVocabulary(v + [x]) == LiveVocabulary(v) + (if x.deleted then [] else [x])
    ensures |LiveVocabulary(v + [x])| == |LiveVocabulary(v)| + (if x.deleted then 0 else 1)
  {
    FilterAppend(v, [x], (y: VocabularyItem) => !y.deleted);
  }

  /**
   * `Where(!Deleted).Take(limit)`: the first `min(max(limit, 0), count)`
   * live elements, in insertion order, none of them deleted.
   */
  lemma LiveSentencesPage(s: seq<SavedSentence>, limit: int)
    ensures var live := LiveSentences(s);
            var page := Take(live, limit);
            && |page| == (if limit <= 0 then 0 else if limit < |live| then limit else |live|)
            && page == live[..|page|]
            && forall x :: x in page ==> x in s && !x.deleted
  {
    FilterMembers(s, (y: SavedSentence) => !y.deleted);
    var live := LiveSentences(s);
    assert forall x :: x in Take(live, limit) ==> x in live;
  }

  lemma LiveVocabularyPage(v: seq<VocabularyItem>, limit: int)
    ensures var live := LiveVocabulary(v);
            var page := Take(live, limit);
            && |page| == (if limit <= 0 then 0 else if limit < |live| then limit else |live|)
            && page == live[..|page|]
            && forall x :: x in page ==> x in v && !x.deleted
  {
    FilterMembers(v, (y: VocabularyItem) => !y.deleted);
    var live := LiveVocabulary(v);
    assert forall x :: x in Take(live, limit) ==> x in live;
  }

  class InMemoryLearningStore {
    var sentences: seq<SavedSentence>
    var vocabulary: seq<VocabularyItem>

    constructor()
      ensures sentences == [] && vocabulary == []
    {
      sentences := [];
      vocabulary := [];
    }

    /** `AddSavedSentenceAsync`: appended as is, even when its id is already present. */
    method AddSavedSentence(sentence: SavedSentence)
      modifies this`sentences
      ensures sentences == old(sentences) + [sentence]
      ensures GetSavedSentenceCount() == old(GetSavedSentenceCount()) + (if sentence.deleted then 0 else 1)
    {
      LiveSentencesAdd(sentences, sentence);
      sentences := sentences + [sentence];
    }

    /** `AddVocabularyAsync`: appended as is. */
    method AddVocabulary(item: VocabularyItem)
      modifies this`vocabulary
      ensures vocabulary == old(vocabulary) + [item]
      ensures GetVocabularyCount() == old(GetVocabularyCount()) + (if item.deleted then 0 else 1)
    {
      LiveVocabularyAdd(vocabulary, item);
      vocabulary := vocabulary + [item];
    }

    function GetSavedSentenceCount(): (n: nat)
      reads this
      ensures n <= |sentences|
    {
      |LiveSentences(sentences)|
    }

    function GetVocabularyCount(): (n: nat)
      reads this
      ensures n <= |vocabulary|
    {
      |LiveVocabulary(vocabulary)|
    }

    function GetSavedSentences(limit: int): (r: seq<SavedSentence>)
      reads this
      ensures |r| == if limit <= 0 then 0 else if limit < GetSavedSentenceCount() then limit else GetSavedSentenceCount()
      ensures forall x :: x in r ==> x in sentences && !x.deleted
      ensures r == LiveSentences(sentences)[..|r|]
    {
      LiveSentencesPage(sentences, limit);
      Take(LiveSentences(sentences), limit)
    }

    function GetVocabulary(limit: int): (r: seq<VocabularyItem>)
      reads this
      ensures |r| == if limit <= 0 then 0 else if limit < GetVocabularyCount() then limit else GetVocabularyCount()
      ensures forall x :: x in r ==> x in vocabulary && !x.deleted
      ensures r == LiveVocabulary(vocabulary)[..|r|]
    {
      LiveVocabularyPage(vocabulary, limit);
      Take(LiveVocabulary(vocabulary), limit)
    }
  }
}
