/** The entities of projects/models.py: a Project with creator, member set and
    completion flag, and its ProjectProgress updates. */
module ProjectsModels {
  import opened Common
  import opened UsersModels

  type ProjectId = nat
  type ProgressId = nat

  /** `startDate` and `endDate` are day numbers (see Common.DateOf). */
  datatype Project = Project(
    title: string,
    description: string,
    creator: UserId,
    members: set<UserId>,
    isCompleted: bool,
    startDate: int,
    endDate: Option<int>)

  datatype Progress = Progress(project: ProjectId, description: string, createdAt: int)
}
