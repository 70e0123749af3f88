/**
 The keyword landing registry (config/keyword-landings.ts): sixteen landing
 pages, each with a slug, a ranking mode, a related topic and its FAQ. Only
 the fields the engine reads are kept; titles, descriptions, intros and FAQ
 text are prose, and of the FAQ only its length is kept.
 */
module KeywordConfig {

  import opened Wrappers

  /** The five ranking modes a landing can use. */
  datatype Mode = RemoteBudget | CheapFastInternet | SafeHealthcare | CleanAirJobs | SoftwareRelocation

  datatype KeywordLanding = KeywordLanding(slug: string, relatedTopicSlug: Option<string>, mode: Mode, faqCount: nat)

  const RemoteWork: string := "remote-work-city-guides"
  const SafeHealthy: string := "safe-healthy-cities"
  const Relocation: string := "city-relocation-frameworks"

  /** `keywordLandings`, in file order. */
  const Landings: seq<KeywordLanding> := [
    KeywordLanding("best-cities-for-remote-workers-under-2000", Some(RemoteWork), RemoteBudget, 2),
    KeywordLanding("cheapest-cities-with-fast-internet-in-europe", Some(RemoteWork), CheapFastInternet, 2),
    KeywordLanding("safest-cities-with-good-healthcare-for-expats", Some(SafeHealthy), SafeHealthcare, 2),
    KeywordLanding("best-cities-with-clean-air-and-good-jobs", Some(SafeHealthy), CleanAirJobs, 2),
    KeywordLanding("best-cities-for-software-engineers-relocation", Some(Relocation), SoftwareRelocation, 2),
    KeywordLanding("best-cities-for-remote-workers-under-1500", Some(RemoteWork), RemoteBudget, 2),
    KeywordLanding("affordable-remote-work-cities-with-fast-internet", Some(RemoteWork), RemoteBudget, 2),
    KeywordLanding("best-digital-nomad-cities-under-1800", Some(RemoteWork), RemoteBudget, 2),
    KeywordLanding("lowest-cost-cities-in-europe-with-high-speed-internet", Some(RemoteWork), CheapFastInternet, 2),
    KeywordLanding("affordable-european-cities-for-remote-work-with-fast-internet", Some(RemoteWork), CheapFastInternet, 2),
    KeywordLanding("safest-cities-in-europe-with-good-healthcare", Some(SafeHealthy), SafeHealthcare, 2),
    KeywordLanding("safest-cities-for-families-with-strong-healthcare", Some(SafeHealthy), SafeHealthcare, 2),
    KeywordLanding("low-pollution-cities-with-strong-job-market", Some(SafeHealthy), CleanAirJobs, 2),
    KeywordLanding("best-cities-for-healthy-living-and-career-growth", Some(SafeHealthy), CleanAirJobs, 2),
    KeywordLanding("best-cities-for-software-engineers-remote-and-hybrid-work", Some(Relocation), SoftwareRelocation, 2),
    KeywordLanding("top-cities-for-developers-quality-of-life-and-jobs", Some(Relocation), SoftwareRelocation, 2)
  ]

  /** Landing slugs are pairwise distinct, so a slug lookup is unambiguous. */
  lemma LandingSlugsDistinct()
    ensures |Landings| == 16
    ensures forall i, j :: 0 <= i < j < |Landings| ==> Landings[i].slug != Landings[j].slug
  {
  }

  /** The topic family a mode's landings point to. */
  function TopicOfMode(mode: Mode): string
  {
    match mode
    case RemoteBudget | CheapFastInternet => RemoteWork
    case SafeHealthcare | CleanAirJobs => SafeHealthy
    case SoftwareRelocation => Relocation
  }

  /**
   Every landing sets its related topic, although the field is optional, and
   the topic is a function of the mode; every landing has two FAQ entries.
   */
  lemma LandingTopics()
    ensures forall i :: 0 <= i < |Landings| ==> Landings[i].relatedTopicSlug == Some(TopicOfMode(Landings[i].mode))
    ensures forall i :: 0 <= i < |Landings| ==> Landings[i].faqCount == 2
  {
  }

  /** Each of the five modes is used by some landing. */
  lemma EveryModeUsed(mode: Mode)
    ensures exists i :: 0 <= i < |Landings| && Landings[i].mode == mode
  {
    match mode
    case RemoteBudget => assert Landings[0].mode == mode;
    case CheapFastInternet => assert Landings[1].mode == mode;
    case SafeHealthcare => assert Landings[2].mode == mode;
    case CleanAirJobs => assert Landings[3].mode == mode;
    case SoftwareRelocation => assert Landings[4].mode == mode;
  }

  /** Two modes share a topic family exactly when both are remote-work, both health, or equal. */
  lemma TopicFamilies(m1: Mode, m2: Mode)
    ensures TopicOfMode(m1) == TopicOfMode(m2) <==>
              m1 == m2
              || ({m1, m2} == {RemoteBudget, CheapFastInternet})
              || ({m1, m2} == {SafeHealthcare, CleanAirJobs})
  {
  }
}
