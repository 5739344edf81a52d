/**
 * The vocabulary page component: its state, the mount effect, the search input,
 * the theme button and the pronunciation button, as methods that update that state.
 */
module WordsPage {
  import opened Wrappers
  import opened Catalog
  import opened Search
  import opened Theme
  import opened HeadwordSplit
  import opened Pronunciation

  /** An `HTMLAudioElement`: the URL it was created with and whether it is paused. */
  class AudioClip {
    const src: string
    var paused: bool

    /** `new Audio(src)`: a new element starts paused. */
    constructor (src: string)
      ensures this.src == src && paused
    {
      this.src := src;
      paused := true;
    }

    /** `audio.pause()`. */
    method Pause()
      modifies this
      ensures paused
    {
      paused := true;
    }

    /** `audio.play()`, started and not awaited. */
    method Play()
      modifies this
      ensures !paused
    {
      paused := false;
    }
  }

  /** The `disabled` test of an entry's play button: `loadingWord === item.headword`. */
  function PlayButtonDisabled(loadingWord: Option<string>, headword: string): (disabled: bool)
    ensures loadingWord.None? ==> !disabled
  {
    loadingWord == Some(headword)
  }

  /** At most one button is disabled at a time: the one whose headword is the loading marker. */
  lemma AtMostOneButtonDisabled(loadingWord: Option<string>, h1: string, h2: string)
    requires PlayButtonDisabled(loadingWord, h1) && PlayButtonDisabled(loadingWord, h2)
    ensures h1 == h2 && loadingWord == Some(h1)
  {
  }

  /**
   * While an entry's own lookup is in flight, its button is disabled only if the
   * headword has no whitespace, `/` or `(`: the loading marker holds the lookup
   * key, and the test compares it with the whole headword.
   */
  lemma OwnButtonDisabledWhileLoading(headword: string)
    ensures PlayButtonDisabled(Some(LookupKey(headword)), headword) <==> NoDelimiter(headword)
  {
    LookupKeyWhole(headword);
  }

  /** In the catalog, the button of "Adequate / Inadequate" stays enabled while its own lookup runs. */
  lemma AdequateButtonStaysEnabled()
    ensures WordData[9].headword == "Adequate / Inadequate"
    ensures LookupKey(WordData[9].headword) == "Adequate"
    ensures !PlayButtonDisabled(Some(LookupKey(WordData[9].headword)), WordData[9].headword)
  {
    AdequateKey();
  }

  /** The button of "Adequate / Inadequate" requests the dictionary entry of "Adequate". */
  lemma AdequateRequestUrl()
    ensures RequestUrl(LookupKey(WordData[9].headword)) == DictionaryEndpoint + "Adequate"
  {
    AdequateKey();
  }

  /** The state of one mounted vocabulary page. */
  class Page {
    var words: seq<WordEntry>
    var filteredWords: seq<WordEntry>
    var searchTerm: string
    var isDark: bool
    var currentAudio: AudioClip?
    var loadingWord: Option<string>
    /** The browser's key-value store, as seen by this page. */
    var storage: map<string, string>

    /** The displayed list is always the search applied to the word list. */
    ghost predicate Valid()
      reads this
    {
      filteredWords == FilterWords(words, searchTerm)
    }

    /** The initial state of the component's hooks, over the store found in the browser. */
    constructor (storage: map<string, string>)
      ensures Valid()
      ensures words == [] && filteredWords == [] && searchTerm == ""
      ensures isDark && currentAudio == null && loadingWord == None
      ensures this.storage == storage
    {
      words, filteredWords, searchTerm := [], [], "";
      isDark, currentAudio, loadingWord := true, null, None;
      this.storage := storage;
    }

    /**
     * The mount effect: load the catalog, seed the displayed list and restore the
     * theme; its `setWords` then re-runs the search effect over the new list.
     */
    method Mount()
      modifies this`words, this`filteredWords, this`isDark
      ensures Valid()
      ensures words == WordData
      ensures isDark == Restore(GetItem(storage, ThemeKey), old(isDark))
    {
      words := WordData;
      filteredWords := WordData;
      var savedTheme := GetItem(storage, ThemeKey);
      if savedTheme == Some(LightMarker) {
        isDark := false;
      }
      filteredWords := FilterWords(words, searchTerm);
    }

    /** Typing in the search box, followed by the search effect it triggers. */
    method SetSearchTerm(term: string)
      modifies this`searchTerm, this`filteredWords
      ensures Valid()
      ensures searchTerm == term
      ensures filteredWords == FilterWords(words, term)
    {
      searchTerm := term;
      filteredWords := FilterWords(words, searchTerm);
    }

    /** The theme button: flip the flag and persist the marker of the new flag. */
    method ToggleTheme()
      requires Valid()
      modifies this`isDark, this`storage
      ensures Valid()
      ensures ThemeState(isDark, storage) == Toggle(ThemeState(old(isDark), old(storage)))
      ensures Restore(GetItem(storage, ThemeKey), true) == isDark
    {
      var newTheme := !isDark;
      isDark := newTheme;
      storage := storage[ThemeKey := Marker(newTheme)];
    }

    /**
     * `playPronunciation` up to its first `await`: pause the current audio, mark
     * `word` as loading, and issue the request (returned as its URL).
     */
    method BeginPronunciation(word: string) returns (request: string)
      requires Valid()
      modifies this`loadingWord, currentAudio
      ensures Valid()
      ensures request == RequestUrl(word)
      ensures loadingWord == Some(word)
      ensures currentAudio != null ==> currentAudio.paused
    {
      if currentAudio != null {
        currentAudio.Pause();
      }
      loadingWord := Some(word);
      request := RequestUrl(word);
    }

    /**
     * `playPronunciation` after the request settles: play the first usable audio
     * URL if there is one, then, in every case, clear the loading marker.
     */
    method CompletePronunciation(result: FetchResult)
      requires Valid()
      modifies this`currentAudio, this`loadingWord
      ensures Valid()
      ensures loadingWord == None
      ensures AudioSource(result).None? ==> currentAudio == old(currentAudio)
      ensures AudioSource(result).Some? ==>
        && currentAudio != null && fresh(currentAudio)
        && currentAudio.src == AudioSource(result).value && !currentAudio.paused
    {
      var src := AudioSource(result);
      if src.Some? {
        var audio := new AudioClip(src.value);
        currentAudio := audio;
        audio.Play();
      }
      loadingWord := None;
    }

    /** One pronunciation request from trigger to settlement, with `result` as its outcome. */
    method PlayPronunciation(word: string, result: FetchResult) returns (request: string)
      requires Valid()
      modifies this`loadingWord, this`currentAudio, currentAudio
      ensures Valid()
      ensures request == RequestUrl(word)
      ensures old(currentAudio) != null ==> old(currentAudio).paused
      ensures loadingWord == None
      ensures AudioSource(result).None? ==> currentAudio == old(currentAudio)
      ensures AudioSource(result).Some? ==>
        && currentAudio != null && fresh(currentAudio)
        && currentAudio.src == AudioSource(result).value && !currentAudio.paused
    {
      request := BeginPronunciation(word);
      CompletePronunciation(result);
    }

    /**
     * The play button of `entry`: start the lookup of its key. While it is in
     * flight the entry's own button is disabled only for a headword without delimiters.
     */
    method PressPlay(entry: WordEntry) returns (request: string)
      requires Valid()
      modifies this`loadingWord, currentAudio
      ensures Valid()
      ensures request == RequestUrl(LookupKey(entry.headword))
      ensures loadingWord == Some(LookupKey(entry.headword))
      ensures currentAudio != null ==> currentAudio.paused
      ensures PlayButtonDisabled(loadingWord, entry.headword) <==> NoDelimiter(entry.headword)
    {
      request := BeginPronunciation(LookupKey(entry.headword));
      OwnButtonDisabledWhileLoading(entry.headword);
    }
  }

  /**
   * Two pronunciations in a row that both find audio: the first clip ends paused,
   * a different clip, the second, is the one playing, and nothing is left loading.
   */
  method PlayTwoWords(page: Page, a: string, ra: FetchResult, b: string, rb: FetchResult)
    returns (first: AudioClip?)
    requires page.Valid()
    requires AudioSource(ra).Some? && AudioSource(rb).Some?
    modifies page, page.currentAudio
    ensures page.Valid()
    ensures first != null && first.paused && first.src == AudioSource(ra).value
    ensures page.currentAudio != null && page.currentAudio != first
    ensures !page.currentAudio.paused && page.currentAudio.src == AudioSource(rb).value
    ensures page.loadingWord == None
  {
    var requestA := page.PlayPronunciation(a, ra);
    first := page.currentAudio;
    var requestB := page.PlayPronunciation(b, rb);
  }
}
