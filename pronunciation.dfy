/**
 * The dictionary lookup behind the pronunciation button: the request URL, the
 * outcomes the page distinguishes, and the choice of the audio file to play.
 */
module Pronunciation {
  import opened Wrappers

  const DictionaryEndpoint := "https://api.dictionaryapi.dev/api/v2/entries/en/"

  /** The URL fetched for a word. */
  function RequestUrl(word: string): (url: string)
    ensures DictionaryEndpoint <= url && url[|DictionaryEndpoint|..] == word
  {
    DictionaryEndpoint + word
  }

  /** Different words are never fetched through the same URL. */
  lemma RequestUrlNamesWord(w1: string, w2: string)
    requires RequestUrl(w1) == RequestUrl(w2)
    ensures w1 == w2
  {
    var n := |DictionaryEndpoint|;
    assert w1 == RequestUrl(w1)[n..];
    assert w2 == RequestUrl(w2)[n..];
  }

  /** One element of a dictionary entry's `phonetics` list; `audio` may be absent. */
  datatype Phonetic = Phonetic(audio: Option<string>)

  /** One element of the JSON array the dictionary returns; `phonetics` may be absent. */
  datatype DictionaryEntry = DictionaryEntry(phonetics: Option<seq<Phonetic>>)

  /**
   * What the awaited `fetch` and `response.json()` produce: a rejected fetch, a
   * response whose `ok` is false, a body that is not JSON, or the parsed array.
   */
  datatype FetchResult =
    | NetworkFailure
    | NotOk
    | MalformedBody
    | Parsed(entries: seq<DictionaryEntry>)

  /** `p.audio` is truthy: present and not the empty string. */
  predicate HasAudio(p: Phonetic)
  {
    p.audio.Some? && p.audio.value != ""
  }

  /** `data[0]?.phonetics || []`: only the first entry is consulted. */
  function PhoneticsOf(entries: seq<DictionaryEntry>): (ps: seq<Phonetic>)
    ensures entries != [] && entries[0].phonetics.Some? ==> ps == entries[0].phonetics.value
    ensures entries == [] || entries[0].phonetics.None? ==> ps == []
  {
    if entries == [] then []
    else match entries[0].phonetics
      case None => []
      case Some(ps) => ps
  }

  /** The index `phonetics.find(p => p.audio)` stops at: the first phonetic with a truthy `audio`. */
  function FirstAudioIndex(ps: seq<Phonetic>): (r: Option<nat>)
    ensures r.None? <==> forall i :: 0 <= i < |ps| ==> !HasAudio(ps[i])
    ensures r.Some? ==> r.value < |ps| && HasAudio(ps[r.value])
    ensures r.Some? ==> forall j :: 0 <= j < r.value ==> !HasAudio(ps[j])
  {
    if ps == [] then None
    else if HasAudio(ps[0]) then Some(0)
    else match FirstAudioIndex(ps[1..])
      case None => None
      case Some(i) => Some(i + 1)
  }

  /**
   * The URL handed to `new Audio(...)` for a fetch result, or `None` when the page
   * plays nothing: on a failed request, a non-ok response, a malformed body, an
   * empty result, or no phonetic with a truthy `audio`.
   */
  function AudioSource(result: FetchResult): (src: Option<string>)
    ensures src.Some? ==> src.value != ""
    ensures src.Some? <==> result.Parsed? && exists i :: 0 <= i < |PhoneticsOf(result.entries)| && HasAudio(PhoneticsOf(result.entries)[i])
  {
    match result
    case Parsed(entries) =>
      var ps := PhoneticsOf(entries);
      (match FirstAudioIndex(ps)
       case None => None
       case Some(i) => ps[i].audio)
    case _ => None
  }

  /** The URL chosen is that of the first phonetic with a truthy `audio`; later ones are ignored. */
  lemma AudioSourceIsFirst(entries: seq<DictionaryEntry>, i: nat)
    requires i < |PhoneticsOf(entries)| && HasAudio(PhoneticsOf(entries)[i])
    requires forall j :: 0 <= j < i ==> !HasAudio(PhoneticsOf(entries)[j])
    ensures AudioSource(Parsed(entries)) == PhoneticsOf(entries)[i].audio
  {
    var r := FirstAudioIndex(PhoneticsOf(entries));
    assert r == Some(i);
  }

  /** Empty `phonetics`, or phonetics none of which has audio, play nothing. */
  lemma NoAudioPlaysNothing(entries: seq<DictionaryEntry>)
    requires entries != [] && entries[0].phonetics.Some?
    requires forall p :: p in entries[0].phonetics.value ==> p.audio.None? || p.audio == Some("")
    ensures AudioSource(Parsed(entries)) == None
  {
    var ps := entries[0].phonetics.value;
    assert forall i :: 0 <= i < |ps| ==> ps[i] in ps;
  }
}
