/** Requirements of a scholarship, as stored and as the matching engine reads them. */
module Rules {
  import opened Prelude

  datatype Strength = Hard | Soft

  datatype RuleField =
    | Country | Destination | Nationality | Residency | StudyLevel | FieldOfStudy | Gpa
    | Age | DateOfBirth | Institution | Experience | ExperienceMonths | Document
    | DeadlineField | OtherField

  datatype Operator = Equals | NotEquals | In | NotIn | Gte | Lte | Contains | Exists

  /** The JSON values a rule may carry. `Opaque` is any value no comparator understands. */
  datatype RuleValue =
    | Whole(n: int)
    | Wholes(ns: seq<int>)
    | Phrase(text: string)
    | Phrases(texts: seq<string>)
    | OnDate(date: Date)
    | GpaTarget(score: real, scale: real)
    | Truth(b: bool)
    | Opaque(json: string)

  datatype Evidence = Evidence(sourceUrl: Option<string>, summary: Option<string>)

  datatype Requirement = Requirement(
    strength: Strength,
    field: RuleField,
    operator: Operator,
    value: RuleValue,
    evidence: Evidence,
    reviewerNotes: Option<string>,
    position: nat)
}
