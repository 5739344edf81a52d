/** The vocabulary entries the page displays, and the fixed list it loads on mount. */
module Catalog {

  /**
   * One entry of the word book. The four part-of-speech fields and the two
   * collocation fields use the empty string for "not applicable".
   */
  datatype WordEntry = WordEntry(
    headword: string,
    translation: string,
    verb: string,
    noun: string,
    adjective: string,
    adverb: string,
    collocation: string,
    collocation_tr: string)

  /** The ten entries of the upper-intermediate list, in display order. */
  const WordData: seq<WordEntry> := [
    AbandonEntry, AbsorbEntry, AbuseEntry, AccelerateEntry, AccomplishEntry,
    AccountEntry, AcquireEntry, ActivateEntry, AdaptEntry, AdequateEntry
  ]

  const AbandonEntry := WordEntry("Abandon", "Terk etmek, Vazgeçmek", "abandon", "abandonment", "abandoned", "",
    "to be forced to abandon stg completely/entirely", "Bir şeyi tamamen terk etmeye zorlanmak")

  const AbsorbEntry := WordEntry("Absorb", "Emmek, Soğurmak", "absorb", "", "absorbent", "",
    "to absorb quickly/rapidly", "Hızlıca/süratle emmek")

  const AbuseEntry := WordEntry("Abuse", "İstismar etmek, Kötüye kullanmak", "abuse", "abuser, abuse", "abusive", "",
    "to be abused emotionally/physically/sexually/verbally", "Duygusal/fiziksel/cinsel/sözlü olarak istismar edilmek")

  const AccelerateEntry := WordEntry("Accelerate", "Hızlandırmak", "accelerate", "acceleration", "", "",
    "quickly accelerate rapid acceleration", "Hızlıca hızlanmak, ani hızlanma")

  const AccomplishEntry := WordEntry("accomplish", "Başarmak", "accomplish", "accomplishment", "accomplished", "",
    "accomplish successfully /easily become accomplished", "Başarıyla/kolayca başarmak, başarılı olmak")

  const AccountEntry := WordEntry("Account", "Hesap, Sorumluluk", "", "accountability, account", "accountable", "",
    "take sth into account, bank account, to be accountable for sth", "Bir şeyi hesaba katmak, banka hesabı, bir şeyden sorumlu olmak")

  const AcquireEntry := WordEntry("Acquire", "Edinmek, Kazanmak", "acquire", "acquisition", "", "",
    "to acquire knowledge/skills, language acquisition", "Bilgi/beceri edinmek, dil edinimi")

  const ActivateEntry := WordEntry("activate", "Etkinleştirmek", "activate", "action", "active", "actively",
    "effective/firm/strong action, become/keep active", "Etkili/kesin/güçlü eylem, aktif olmak/kalmak")

  const AdaptEntry := WordEntry("Adapt", "Uyum sağlamak", "adapt", "adaptation, adaptability", "adaptable", "",
    "to adapt successfully/well, to be adaptable, highly/very adaptable", "Başarıyla/iyi uyum sağlamak, uyumlu olmak, oldukça/çok uyumlu olmak")

  const AdequateEntry := WordEntry("Adequate / Inadequate", "Yeterli/Yetersiz", "", "adequacy, inadequacy", "adequate, inadequate", "adequately, inadequately",
    "adequacy of sth, to be/seem adequate for sth", "Bir şeyin yeterliliği, bir şey için yeterli olmak/görünmek")
}
