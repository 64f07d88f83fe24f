/** The task rows the script receives from the backend and renders. */
module Tasks {
  import opened Wrappers
  import opened Calendar

  /**
    A row of the `tasks` table as far as rendering reads it. `dueAt` is the
    `due_at` column already converted to local time; `None` is `null`.
   */
  datatype Task = Task(id: int, title: string, description: Option<string>, dueAt: Option<Instant>)
}
