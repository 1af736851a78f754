// The JPA entities whose helper methods change them in place: a project
// keeps the list of its tasks and each task points back at its project; a
// developer keeps a set of normalised skills and the list of its tasks.
module Entities {
  import opened Common
  import opened Domain
  import Skills

  class TaskEntity {
    var project: ProjectEntity?

    constructor ()
      ensures project == null
    {
      project := null;
    }
  }

  class ProjectEntity {
    var status: ProjectStatus
    var tasks: seq<TaskEntity>

    /** A new project is being planned and has no tasks. */
    constructor ()
      ensures status == Planning && tasks == []
    {
      status := Planning;
      tasks := [];
    }

    /** `addTask`: appends the task and points it at this project. */
    method AddTask(task: TaskEntity)
      modifies this`tasks, task`project
      ensures tasks == old(tasks) + [task]
      ensures task.project == this
    {
      tasks := tasks + [task];
      task.project := this;
    }

    /** `removeTask`: drops the first occurrence of the task and detaches it. */
    method RemoveTask(task: TaskEntity)
      modifies this`tasks, task`project
      ensures tasks == RemoveFirst(old(tasks), task)
      ensures task.project == null
    {
      tasks := RemoveFirst(tasks, task);
      task.project := null;
    }

    /** Adding a task the project did not hold and removing it again restores the list. */
    method AddThenRemove(task: TaskEntity)
      requires task !in tasks
      modifies this`tasks, task`project
      ensures tasks == old(tasks)
      ensures task.project == null
    {
      AddTask(task);
      RemoveTask(task);
      AppendThenRemoveFirst(old(tasks), task);
    }
  }

  class DeveloperEntity {
    var skills: set<string>
    var assignedTasks: Option<seq<TaskEntity>>

    constructor ()
      ensures skills == {} && assignedTasks == Some([])
    {
      skills := {};
      assignedTasks := Some([]);
    }

    /** `addSkill`: stores the normal form of a non-blank skill. */
    method AddSkill(skill: Option<string>)
      modifies this`skills
      ensures skills == Skills.AddSkill(old(skills), skill)
    {
      if skill.Some? && Text.Trim(skill.value) != [] {
        skills := skills + {Skills.Normalize(skill.value)};
      }
    }

    /** `removeSkill`: removes the normal form of a non-null skill. */
    method RemoveSkill(skill: Option<string>)
      modifies this`skills
      ensures skills == Skills.RemoveSkill(old(skills), skill)
    {
      if skill.Some? {
        skills := skills - {Skills.Normalize(skill.value)};
      }
    }

    /** `getTaskCount`: the number of assigned tasks, 0 for a missing list. */
    function TaskCount(): (n: nat)
      reads this
      ensures assignedTasks.None? ==> n == 0
      ensures assignedTasks.Some? ==> n == |assignedTasks.value|
    {
      if assignedTasks.Some? then |assignedTasks.value| else 0
    }
  }
}
