/** The quest record: one node of the quest-prerequisite graph.
    Its fields are set once, when the record is built from the catalog
    source's entry, and only read afterwards. */
module Quests {

  /** The `requirements` object of one catalog entry: a skill -> level map,
      the direct prerequisite quest names in declared order, and an
      "other" task -> value map (a boolean "must be done" is 1). */
  datatype Requirements = Requirements(
    skills: map<string, nat>,
    quests: seq<string>,
    other: map<string, nat>)

  /** The information a catalog entry provides besides its name. */
  datatype QuestInfo = QuestInfo(f2p: bool, requirements: Requirements)

  datatype Quest = Quest(
    name: string,
    f2p: bool,
    skillReq: map<string, nat>,
    questReq: seq<string>,
    otherReq: map<string, nat>)
  {
    /** All skill requirements of this quest. */
    function GetSkillReq(): map<string, nat> { skillReq }

    /** The direct prerequisite quest names of this quest. */
    function GetQuestReq(): seq<string> { questReq }

    /** All other requirements of this quest. */
    function GetOtherReq(): map<string, nat> { otherReq }
  }

  /** Builds a quest from its name and its catalog entry. */
  function NewQuest(name: string, info: QuestInfo): (q: Quest)
    ensures q.name == name
    ensures q.f2p == info.f2p
    ensures q.GetSkillReq() == info.requirements.skills
    ensures q.GetQuestReq() == info.requirements.quests
    ensures q.GetOtherReq() == info.requirements.other
  {
    Quest(name, info.f2p, info.requirements.skills,
          info.requirements.quests, info.requirements.other)
  }

  /** The entry shape of a quest (what its display form and the
      requirement report are built from). */
  function InfoOf(q: Quest): (info: QuestInfo)
    ensures NewQuest(q.name, info) == q
  {
    QuestInfo(q.f2p, Requirements(q.GetSkillReq(), q.GetQuestReq(), q.GetOtherReq()))
  }

  /** Building a quest and reading its entry back gives the entry unchanged:
      every getter returns exactly what was given at construction. */
  lemma InfoRoundTrip(name: string, info: QuestInfo)
    ensures InfoOf(NewQuest(name, info)) == info
    ensures NewQuest(name, info).name == name
  {
  }
}
