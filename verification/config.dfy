/** The question-script configuration of the call-flow generator, and the
    checks `validate` makes of a script. The generator itself never calls
    `validate`: loading a script only decodes its JSON. */
module Config {
  import opened Wrappers

  /** The language codes a script may use, in the source's order. */
  const Languages: seq<string> := ["en-US", "nb-NO"]

  /** A series of questions always asked one after another. */
  type Thread = seq<string>

  datatype Config = Config(
    lang: string,
    startMessage: string,
    startMessageReply: string,
    startMessageBadReply: string,
    thanksMessage: string,
    desiredTime: int,
    webhook: string,
    silenceTimeout: int,
    numberVariations: int,
    threads: seq<Thread>)

  /** Why a script is refused, in the order the checks run. */
  datatype ConfigError =
    | UnknownLanguage(lang: string)
    | MissingStartMessage
    | MissingStartMessageReply
    | MissingThreads
    | EmptyThread(index: nat)

  /** The loop over the known languages. */
  function FindLanguage(lang: string, known: seq<string>): (found: bool)
    ensures found <==> lang in known
    decreases |known|
  {
    if |known| == 0 then false
    else if known[0] == lang then true
    else FindLanguage(lang, known[1..])
  }

  /** `checkLang`: the language must be one of the known codes, exactly. */
  function CheckLang(c: Config): (r: Option<ConfigError>)
    ensures r.None? <==> c.lang == "en-US" || c.lang == "nb-NO"
    ensures r.Some? ==> r.value == UnknownLanguage(c.lang)
  {
    if FindLanguage(c.lang, Languages) then None else Some(UnknownLanguage(c.lang))
  }

  /** The index of the first empty thread at or after `from`. */
  function FirstEmptyThread(threads: seq<Thread>, from: nat): (k: Option<nat>)
    ensures k.None? <==> forall i :: from <= i < |threads| ==> threads[i] != []
    ensures k.Some? ==> from <= k.value < |threads| && threads[k.value] == []
    ensures k.Some? ==> forall j :: from <= j < k.value ==> threads[j] != []
    decreases |threads| - from
  {
    if from >= |threads| then None
    else if threads[from] == [] then Some(from)
    else FirstEmptyThread(threads, from + 1)
  }

  /** `validate`: the first failing check, or `None` for a usable script. */
  function Validate(c: Config): (r: Option<ConfigError>)
    ensures r.None? <==>
      && (c.lang == "en-US" || c.lang == "nb-NO")
      && c.startMessage != ""
      && c.startMessageReply != ""
      && |c.threads| > 0
      && forall i :: 0 <= i < |c.threads| ==> c.threads[i] != []
    ensures r == Some(UnknownLanguage(c.lang)) <==> c.lang != "en-US" && c.lang != "nb-NO"
    ensures r == Some(MissingStartMessage) <==>
      (c.lang == "en-US" || c.lang == "nb-NO") && c.startMessage == ""
    ensures r == Some(MissingStartMessageReply) <==>
      (c.lang == "en-US" || c.lang == "nb-NO") && c.startMessage != "" && c.startMessageReply == ""
    ensures r == Some(MissingThreads) <==>
      (c.lang == "en-US" || c.lang == "nb-NO") && c.startMessage != "" && c.startMessageReply != ""
      && c.threads == []
    ensures forall i: nat :: r == Some(EmptyThread(i)) <==>
      && (c.lang == "en-US" || c.lang == "nb-NO") && c.startMessage != "" && c.startMessageReply != ""
      && i < |c.threads| && c.threads[i] == []
      && forall j :: 0 <= j < i ==> c.threads[j] != []
  {
    match CheckLang(c)
    case Some(e) => Some(e)
    case None =>
      if c.startMessage == "" then Some(MissingStartMessage)
      else if c.startMessageReply == "" then Some(MissingStartMessageReply)
      else if |c.threads| == 0 then Some(MissingThreads)
      else
        match FirstEmptyThread(c.threads, 0)
        case Some(i) => Some(EmptyThread(i))
        case None => None
  }

  /** The fields `validate` never looks at can take any values. */
  lemma ValidateIgnoresOtherFields(c: Config, badReply: string, thanks: string, desired: int,
                                   webhook: string, silence: int, variations: int)
    ensures Validate(c) == Validate(c.(startMessageBadReply := badReply, thanksMessage := thanks,
                                       desiredTime := desired, webhook := webhook,
                                       silenceTimeout := silence, numberVariations := variations))
  {
  }

  const DefaultStartMessage := "Takk for at du vil bidra. Samtykker du til at vi bruker opptaket fra din samtale til å trene og validere en modell for stemmeidentifikasjon?"
  const DefaultBadReply := "Det er påkrevd at du samtykker for at vi skal kunne gjøre et opptak av din samtale. Takk for at du ringte."
  const DefaultThanks := "Takk for at du ringer. For å kunne teste systemet best mulig trenger vi opptak av tre samtaler fra deg, helst fra tre ulike steder."

  /** The example script's threads of questions. */
  const DefaultThreads: seq<Thread> := [
    ["Hva gjorde du i sommerferien?", "Liker du best sommer eller vinter, og hvorfor det?"],
    ["Hvorfor valgte du å bidra ved å ringe inn her?", "Bidrar du med andre frivillige aktiviteter eller organisasjoner?"],
    ["Beskriv hvordan været er der du er i dag?", "Hva synes du om dagen vær?"],
    ["Hva liker du best å gjøre i fritiden?"],
    ["Tell fra null til tjue."],
    ["Hva synes du om åpne kontorlandskap?"],
    ["Si navnet på alle månedene i året"],
    ["Beskriv din drømmeferie."],
    ["Hva er det beste med jobben din?", "Hva liker du best å spise til lunsj og hvorfor?"]
  ]

  /** `Default`: the Norwegian example script. */
  function Default(): (c: Config)
    ensures Validate(c).None?
    ensures c.lang == "nb-NO"
  {
    assert forall i :: 0 <= i < |DefaultThreads| ==> DefaultThreads[i] != [];
    Config(
      lang := "nb-NO",
      startMessage := DefaultStartMessage,
      startMessageReply := "ja",
      startMessageBadReply := DefaultBadReply,
      thanksMessage := DefaultThanks,
      desiredTime := 30,
      webhook := "https://vorno.newtechlab.wtf",
      silenceTimeout := 4,
      numberVariations := 10,
      threads := DefaultThreads)
  }
}
