/** The catalog's record types and its closed category enumerations. */
module Types {

  datatype Option<T> = None | Some(value: T)

  /** The role tags a prompt can carry. */
  datatype Role =
    | Marketing | Sales | Engineer | ProductManager
    | HumanResources | Management | GeneralSkills | CustomerRelations

  /** The purpose tags a prompt can carry. */
  datatype Purpose =
    | Copywriting | DataAnalysis | CodeAssist | StrategyPlanning
    | Brainstorming | Summarizing | TranslationPolish

  /** The label each role has in the catalog (and on the page title). */
  function RoleLabel(r: Role): string
  {
    match r
    case Marketing => "行銷"
    case Sales => "業務"
    case Engineer => "工程師"
    case ProductManager => "產品經理"
    case HumanResources => "人力資源"
    case Management => "經營管理"
    case GeneralSkills => "通用職能"
    case CustomerRelations => "客戶關係團隊"
  }

  /** The label each purpose has in the catalog (and on the page title). */
  function PurposeLabel(p: Purpose): string
  {
    match p
    case Copywriting => "文案生成"
    case DataAnalysis => "數據分析"
    case CodeAssist => "程式碼輔助"
    case StrategyPlanning => "策略規劃"
    case Brainstorming => "腦力激盪"
    case Summarizing => "內容總結"
    case TranslationPolish => "翻譯潤色"
  }

  /** The order in which the filter bar lists the roles. */
  const RoleCategories: seq<Role> :=
    [Marketing, Sales, Engineer, ProductManager, HumanResources, Management, CustomerRelations, GeneralSkills]

  /** The order in which the filter bar lists the purposes. */
  const PurposeCategories: seq<Purpose> :=
    [Copywriting, DataAnalysis, CodeAssist, StrategyPlanning, Brainstorming, Summarizing, TranslationPolish]

  /**
   * One catalog record. `createdAt` is the record's creation instant as an
   * integer timestamp (the catalog stores an ISO 8601 date string).
   */
  datatype Prompt = Prompt(
    id: int,
    title: string,
    content: string,
    description: string,
    variables: seq<string>,
    roleCategory: Role,
    purposeCategory: Purpose,
    sourceUrl: string,
    usageInstructions: string,
    exampleOutput: string,
    tags: seq<string>,
    saves: int,
    isEditorsPick: bool,
    isWeeklyHot: bool,
    createdAt: int)

  /** Every role is listed exactly once, and the labels tell the roles apart. */
  lemma RoleCategoriesEnumerate()
    ensures |RoleCategories| == 8
    ensures forall r: Role :: multiset(RoleCategories)[r] == 1
    ensures forall r1: Role, r2: Role :: RoleLabel(r1) == RoleLabel(r2) ==> r1 == r2
  {
    forall r: Role ensures multiset(RoleCategories)[r] == 1 {
      match r
      case Marketing =>
      case Sales =>
      case Engineer =>
      case ProductManager =>
      case HumanResources =>
      case Management =>
      case GeneralSkills =>
      case CustomerRelations =>
    }
  }

  /** Every purpose is listed exactly once, and the labels tell the purposes apart. */
  lemma PurposeCategoriesEnumerate()
    ensures |PurposeCategories| == 7
    ensures forall p: Purpose :: multiset(PurposeCategories)[p] == 1
    ensures forall p1: Purpose, p2: Purpose :: PurposeLabel(p1) == PurposeLabel(p2) ==> p1 == p2
  {
    forall p: Purpose ensures multiset(PurposeCategories)[p] == 1 {
      match p
      case Copywriting =>
      case DataAnalysis =>
      case CodeAssist =>
      case StrategyPlanning =>
      case Brainstorming =>
      case Summarizing =>
      case TranslationPolish =>
    }
  }

  /** No role label is also a purpose label. */
  lemma LabelsDisjoint(r: Role, p: Purpose)
    ensures RoleLabel(r) != PurposeLabel(p)
  {
  }
}
