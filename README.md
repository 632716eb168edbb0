# PyBossa in-memory repositories, modelled in Dafny

PyBossa keeps its domain objects (projects, called `App` in the code, plus
categories, users, blog posts, tasks and task runs) behind repository
classes. Each database-backed repository has an in-memory twin that the
test suite uses in its place: `MemoryTaskRepository`,
`MemoryProjectRepository`, `MemoryUserRepository` and
`MemoryBlogRepository`. Each twin keeps a Python dictionary from id to
object, plus an integer counter that hands out fresh ids. This project
models those four classes:

- the type check that every write performs first (`_validate_can_be`,
  which raises `WrongObjectError`);
- `save` with id assignment for a falsy id, `update`, and `delete`, where
  `del` raises `KeyError` for an absent id;
- the attribute-equality queries `get_by`, `filter_by` and `count_*`;
- the blog repository's id-sorted, sliced `filter_by`;
- the user repository's case-insensitive `search_by_name` and
  `total_users`;
- the task repository's `update_tasks_redundancy`. It sets `n_answers` on
  every task of a project and derives each task's `state` from the number
  of stored task runs of that task.

Layout:

- `common.dfy` (module `Common`): the shared data.
  - Ids are `Key = Option<int>`, because Python's `None` can be an id and a
    dictionary key.
  - Attribute values, entity records with a class tag, and filters.
  - Python's `==` on attribute values (`True == 1`), and the filter match.
  - The errors and the `WrongObjectError` message.
- `store.dfy` (module `Store`): one id-to-entity dictionary as a
  `map<Key, Entity>`.
  - Listing in ascending key order, with `None` first as Python 2 compares it.
    This order is the model's choice. The sorted blog listing relies on it.
  - The filter, count and `pop()`-of-a-match queries.
  - The three writes: `Put` (save), `Replace` (update) and `Remove` (del).
- `task_repository.dfy`, `project_repository.dfy`, `user_repository.dfy`
  and `blog_repository.dfy`: one class per repository.
  - Fields mirror the Python attributes.
  - Methods update the fields in place.
  - Pure functions and lemmas state what the methods compute.

Each class keeps the invariant `Valid()`: every stored entity belongs to
that store's class and sits under its own id, as `store[e.id] = e` leaves
it. The invariant makes listing order equal to id order, which the blog
repository's sorted `filter_by` relies on.

The database-backed `update_tasks_redundancy`
(pybossa/repositories/task_repository.py:100-122) counts runs through a join.
A task with no runs never appears in that join, so it is never marked
completed. The memory version compares the run count with `n_answers`
directly, so a task with no runs becomes `'completed'` when
`n_answers <= 0`. The model follows the memory version.

## Model

| member | source | states |
|---|---|---|
| Common.IdValue | pybossa/repositories/task_repository.py:221 | the value an id takes when a filter compares it: `None` exactly for a missing id |
| Store.SortedKeys | pybossa/repositories/blog_repository.py:100 | the keys of a dictionary listed once each, in strictly ascending id order (`None` first) |
| Store.Where | pybossa/repositories/user_repository.py:120-122 | `filter(p, store.values())`: exactly the stored entities satisfying `p`, one per matching key; the model's listing choice is ascending id order when every entity sits under its own id, which the sorted blog listing uses |
| Store.FilterBy | pybossa/repositories/project_repository.py:162-163 | exactly the stored entities matching every filter pair, one per matching key; an empty filter lists the whole store; the model's listing choice is ascending id order under the keyed-by-id invariant, which the sorted blog listing uses |
| Store.CountWith | pybossa/repositories/task_repository.py:170-171 | `len(filter_by(...))` is the number of keys whose entity matches |
| Store.GetBy | pybossa/repositories/project_repository.py:155-157 | None exactly when no stored entity matches; otherwise some stored entity that matches |
| Store.Lookup | pybossa/repositories/project_repository.py:148-149 | `store.get(id)`: present exactly for a stored key, and then that key's entity |
| Store.Put | pybossa/repositories/project_repository.py:165-169 | save: the saved id is never falsy; a falsy id becomes `count + 1` and bumps the counter, a given id and the counter are kept; the entity is found under its id afterwards and every other key keeps its entity; the keyed-by-id invariant is kept; with all ids at or below the counter, a fresh save adds exactly one key |
| Store.Replace | pybossa/repositories/project_repository.py:171-173 | update: the entity is found under its own id afterwards, the key set gains only that id, every other key keeps its entity |
| Store.Remove | pybossa/repositories/project_repository.py:175-177 | `del store[id]`: KeyError exactly for an absent id; otherwise only that key is gone and the size drops by one |
| Store.PutThenRemove | pybossa/repositories/blog_repository.py:104-116 | when no stored id exceeds the counter, saving an entity without an id and then deleting it gives back the original dictionary |
| TaskRepository.ValidateCanBe | pybossa/repositories/task_repository.py:229-233 | no error exactly for a Task or a TaskRun; otherwise WrongObjectError with `"<Class> cannot be <action> by MemoryTaskRepository"` |
| TaskRepository.WithRedundancy | pybossa/repositories/task_repository.py:223-226 | one task after the loop body: same class and id, `n_answers` set, `state` is `'completed'` exactly when the run count is at least `n_answers` and `'ongoing'` exactly when it is below |
| TaskRepository.WithRedundancyKeepsOthers | pybossa/repositories/task_repository.py:223-226 | the loop body changes no attribute other than `n_answers` and `state` |
| TaskRepository.RedistributedDerivesState | pybossa/repositories/task_repository.py:219-226 | after the recomputation every task of the project has the new `n_answers` and the state its stored run count derives; the key set, every other attribute and every task of another project are unchanged |
| TaskRepository.RedistributedKeepsIdentity | pybossa/repositories/task_repository.py:221-226 | the recomputation keeps every key, and every task's id and class |
| TaskRepository.WithRedundancyIdempotent | pybossa/repositories/task_repository.py:223-226 | applying the loop body twice with the same run count equals applying it once |
| TaskRepository.WithRedundancyStaysInProject | pybossa/repositories/task_repository.py:221-225 | the loop body keeps the task in its project and keeps the `task_id` filter its runs are counted with |
| TaskRepository.RedistributedIdempotent | pybossa/repositories/task_repository.py:219-226 | running `update_tasks_redundancy` twice with the same project and redundancy equals running it once |
| TaskRepository.RedistributeAt | pybossa/repositories/task_repository.py:222-226 | one turn of the loop extends the prefix of already-updated tasks by the current task |
| TaskRepository.RedistributeFinished | pybossa/repositories/task_repository.py:221-226 | once the loop has visited every filtered task, the store is the recomputed one and still keyed by id with only tasks |
| TaskRepository.DeleteFrom | pybossa/repositories/task_repository.py:208-213 | WrongObjectError for a class other than Task or TaskRun; KeyError for an id absent from its store; otherwise the id leaves its own store and the other store is untouched |
| TaskRepository.DeleteEachAppend | pybossa/repositories/task_repository.py:215-217 | deleting `a + b` is deleting `a`, then `b` if nothing raised; a raised error stops the run with earlier deletions kept |
| TaskRepository.DeleteFromRemoves | pybossa/repositories/task_repository.py:208-213 | a delete that raises nothing was given a Task or TaskRun and removes exactly its id from that class's store |
| TaskRepository.DeleteEachOnlyTasksAndRuns | pybossa/repositories/task_repository.py:215-217 | a `delete_all` that raises nothing was given only tasks and task runs |
| TaskRepository.DeleteEachRemovesExactly | pybossa/repositories/task_repository.py:215-217 | a `delete_all` that raises nothing removes exactly the ids of the given tasks from the task store and those of the given runs from the run store |
| TaskRepository.IncrementAsWritten | pybossa/repositories/task_repository.py:147-153 | `self.<name> += 1` on an object: AttributeError exactly when the attribute was never set, otherwise its value plus one |
| TaskRepository.FreshIdAsWrittenRaises | pybossa/repositories/task_repository.py:135-153 | with the counters as `__init__`/`clean` name them, the first fresh task id and the first fresh task run id both raise AttributeError |
| TaskRepository.MemoryTaskRepository.constructor | pybossa/repositories/task_repository.py:135-139 | both stores empty, both counters zero |
| TaskRepository.MemoryTaskRepository.Clean | pybossa/repositories/task_repository.py:141-145 | both stores empty, both counters zero |
| TaskRepository.MemoryTaskRepository.NextTaskId | pybossa/repositories/task_repository.py:147-149 | the task counter goes up by one and is returned; nothing else changes |
| TaskRepository.MemoryTaskRepository.NextTaskrunId | pybossa/repositories/task_repository.py:151-153 | the task run counter goes up by one and is returned; nothing else changes |
| TaskRepository.MemoryTaskRepository.GetTask | pybossa/repositories/task_repository.py:157-158 | present exactly for a stored task id, and then that task |
| TaskRepository.MemoryTaskRepository.GetTaskBy | pybossa/repositories/task_repository.py:160-162 | None exactly when no stored task matches; otherwise a stored task that matches |
| TaskRepository.MemoryTaskRepository.FilterTasksBy | pybossa/repositories/task_repository.py:164-168 | exactly the stored tasks matching every pair, one per matching key; an empty filter lists all tasks; `yielded` gives the same elements |
| TaskRepository.MemoryTaskRepository.CountTasksWith | pybossa/repositories/task_repository.py:170-171 | the number of stored tasks that match, which is the length of `FilterTasksBy` |
| TaskRepository.MemoryTaskRepository.GetTaskRun | pybossa/repositories/task_repository.py:175-176 | present exactly for a stored task run id, and then that run |
| TaskRepository.MemoryTaskRepository.GetTaskRunBy | pybossa/repositories/task_repository.py:178-180 | None exactly when no stored run matches; otherwise a stored run that matches |
| TaskRepository.MemoryTaskRepository.FilterTaskRunsBy | pybossa/repositories/task_repository.py:182-186 | exactly the stored runs matching every pair; an empty filter lists all runs |
| TaskRepository.MemoryTaskRepository.CountTaskRunsWith | pybossa/repositories/task_repository.py:188-189 | the number of stored runs that match, which is the length of `FilterTaskRunsBy` |
| TaskRepository.MemoryTaskRepository.Save | pybossa/repositories/task_repository.py:193-202 | WrongObjectError "saved" exactly for a class other than Task/TaskRun, with nothing changed; a Task is saved into the task store with its own counter, as `Store.Put`, and the run store and run counter stay as they were; a TaskRun symmetrically |
| TaskRepository.MemoryTaskRepository.Update | pybossa/repositories/task_repository.py:204-206 | WrongObjectError "updated" for a wrong class; otherwise exactly what `save` does, id assignment included |
| TaskRepository.MemoryTaskRepository.Delete | pybossa/repositories/task_repository.py:208-213 | the stores after the call and the error raised agree with `DeleteFrom`; after a successful delete, `get_task` or `get_task_run` of that id is None |
| TaskRepository.MemoryTaskRepository.DeleteAll | pybossa/repositories/task_repository.py:215-217 | the stores afterwards and the error raised agree with deleting the elements one by one in order (`DeleteEach`) |
| TaskRepository.MemoryTaskRepository.RedistributedTasks | pybossa/repositories/task_repository.py:221-226 | the loop over `filter_tasks_by(app_id=project.id)` yields the recomputed task store, still keyed by id with only tasks |
| TaskRepository.MemoryTaskRepository.UpdateTasksRedundancy | pybossa/repositories/task_repository.py:219-226 | the task store becomes the recomputed one and the invariant holds; the run store and both counters are outside its frame and do not change |
| ProjectRepository.ValidateCanBe | pybossa/repositories/project_repository.py:211-215 | no error exactly for an element of the expected class; otherwise WrongObjectError `"<Class> cannot be <action> by MemoryProjectRepository"` |
| ProjectRepository.DeleteChecked | pybossa/repositories/project_repository.py:175-177 | WrongObjectError for the wrong class, KeyError for an absent id, otherwise only that id is removed and every other key keeps its entity |
| ProjectRepository.MemoryProjectRepository.constructor | pybossa/repositories/project_repository.py:126-130 | both stores empty, both counters zero |
| ProjectRepository.MemoryProjectRepository.Clean | pybossa/repositories/project_repository.py:132-136 | both stores empty, both counters zero |
| ProjectRepository.MemoryProjectRepository.NextId | pybossa/repositories/project_repository.py:138-140 | the project counter goes up by one and is returned |
| ProjectRepository.MemoryProjectRepository.NextCategoryId | pybossa/repositories/project_repository.py:142-144 | the category counter goes up by one and is returned |
| ProjectRepository.MemoryProjectRepository.Get | pybossa/repositories/project_repository.py:148-149 | present exactly for a stored project id, and then that project |
| ProjectRepository.MemoryProjectRepository.GetByShortname | pybossa/repositories/project_repository.py:151-153 | None exactly when no stored project has that `short_name`; otherwise a stored project whose `short_name` equals it |
| ProjectRepository.MemoryProjectRepository.GetBy | pybossa/repositories/project_repository.py:155-157 | None exactly when no stored project matches; otherwise a stored project that matches |
| ProjectRepository.MemoryProjectRepository.GetAll | pybossa/repositories/project_repository.py:159-160 | every stored project once: same count, same members |
| ProjectRepository.MemoryProjectRepository.FilterBy | pybossa/repositories/project_repository.py:162-163 | exactly the stored projects matching every pair; an empty filter lists all projects; no pagination |
| ProjectRepository.MemoryProjectRepository.Save | pybossa/repositories/project_repository.py:165-169 | WrongObjectError "saved" exactly for a non-App, with nothing changed; otherwise the save of `Store.Put` with the project counter, and `get` of the saved id returns the project; categories are outside its frame |
| ProjectRepository.MemoryProjectRepository.Update | pybossa/repositories/project_repository.py:171-173 | WrongObjectError "updated" for a non-App; otherwise `store[project.id] = project` and nothing else (counter and categories outside its frame), and `get` finds it |
| ProjectRepository.MemoryProjectRepository.Delete | pybossa/repositories/project_repository.py:175-177 | agrees with `DeleteChecked` on the project store: wrong class, KeyError, or only that id removed; `get` of the id is None afterwards |
| ProjectRepository.MemoryProjectRepository.GetCategory | pybossa/repositories/project_repository.py:181-184 | None for a missing id, even when a category is stored under `None`; otherwise a plain lookup |
| ProjectRepository.MemoryProjectRepository.GetCategoryBy | pybossa/repositories/project_repository.py:186-188 | None exactly when no stored category matches; otherwise a stored category that matches |
| ProjectRepository.MemoryProjectRepository.GetAllCategories | pybossa/repositories/project_repository.py:190-191 | every stored category once |
| ProjectRepository.MemoryProjectRepository.FilterCategoriesBy | pybossa/repositories/project_repository.py:193-194 | exactly the stored categories matching every pair; an empty filter lists them all |
| ProjectRepository.MemoryProjectRepository.SaveCategory | pybossa/repositories/project_repository.py:196-200 | WrongObjectError "saved as a Category" exactly for a non-Category; otherwise the save of `Store.Put` with the category counter, and `get_category` finds it; projects are outside its frame |
| ProjectRepository.MemoryProjectRepository.UpdateCategory | pybossa/repositories/project_repository.py:202-204 | WrongObjectError "updated as a Category" for a non-Category; otherwise `category_store[id] = category` and nothing else |
| ProjectRepository.MemoryProjectRepository.DeleteCategory | pybossa/repositories/project_repository.py:206-208 | agrees with `DeleteChecked` on the category store with action "deleted as a Category"; `get_category` of the id is None afterwards |
| UserRepository.ValidateCanBe | pybossa/repositories/user_repository.py:138-142 | no error exactly for a User; otherwise WrongObjectError `"<Class> cannot be <action> by MemoryUserRepository"` |
| UserRepository.Lower | pybossa/repositories/user_repository.py:120 | `lower()`: same length, each character lower-cased |
| UserRepository.ContainsAt | pybossa/repositories/user_repository.py:120 | Python's `k in s`, defined position by position, holds exactly when `k` occurs at some index of `s` |
| UserRepository.ContainsLower | pybossa/repositories/user_repository.py:120 | an occurrence survives lower-casing both strings |
| UserRepository.Search | pybossa/repositories/user_repository.py:117-122 | an empty keyword finds nobody; otherwise exactly the stored users whose lower-cased name or full name contains the lower-cased keyword, one entry per matching key |
| UserRepository.SearchIgnoresKeywordCase | pybossa/repositories/user_repository.py:120-122 | searching for a keyword and for its lower-case form finds the same users |
| UserRepository.SearchFindsName | pybossa/repositories/user_repository.py:117-122 | a stored user whose name contains a non-empty keyword is found |
| UserRepository.MemoryUserRepository.constructor | pybossa/repositories/user_repository.py:88-90 | empty store, counter zero |
| UserRepository.MemoryUserRepository.Clean | pybossa/repositories/user_repository.py:92-94 | empty store, counter zero |
| UserRepository.MemoryUserRepository.NextId | pybossa/repositories/user_repository.py:96-98 | the counter goes up by one and is returned |
| UserRepository.MemoryUserRepository.Get | pybossa/repositories/user_repository.py:100-101 | present exactly for a stored user id, and then that user |
| UserRepository.MemoryUserRepository.GetByName | pybossa/repositories/user_repository.py:103-105 | None exactly when no stored user has that `name`; otherwise a stored user whose `name` equals it |
| UserRepository.MemoryUserRepository.GetBy | pybossa/repositories/user_repository.py:107-109 | None exactly when no stored user matches; otherwise a stored user that matches |
| UserRepository.MemoryUserRepository.GetAll | pybossa/repositories/user_repository.py:111-112 | every stored user once |
| UserRepository.MemoryUserRepository.FilterBy | pybossa/repositories/user_repository.py:114-115 | exactly the stored users matching every pair; an empty filter lists all users |
| UserRepository.MemoryUserRepository.SearchByName | pybossa/repositories/user_repository.py:117-122 | an empty keyword gives `[]`; otherwise exactly the stored users that the case-insensitive name/full-name test accepts, one entry per matching key |
| UserRepository.MemoryUserRepository.TotalUsers | pybossa/repositories/user_repository.py:124-125 | the number of keys in the store |
| UserRepository.MemoryUserRepository.Save | pybossa/repositories/user_repository.py:127-131 | WrongObjectError "saved" exactly for a non-User, with nothing changed; otherwise the save of `Store.Put`, and `get` finds the user; a fresh save with all ids within the counter raises `total_users` by one and keeps ids within the counter; a save under an existing non-falsy id keeps `total_users` |
| UserRepository.MemoryUserRepository.Update | pybossa/repositories/user_repository.py:133-135 | WrongObjectError "updated" for a non-User; otherwise `store[new_user.id] = new_user` and nothing else, and `get` finds it |
| BlogRepository.ValidateCanBe | pybossa/repositories/blog_repository.py:119-123 | no error exactly for a Blogpost; otherwise WrongObjectError `"<Class> cannot be <action> by MemoryBlogRepository"` |
| BlogRepository.SliceBound | pybossa/repositories/blog_repository.py:101 | Python's slice bound: a negative bound counts from the end, and the result is clamped to the list |
| BlogRepository.Slice | pybossa/repositories/blog_repository.py:101 | `s[lo:hi]`: empty when the bounds cross, otherwise the elements from the lower bound up to the upper one |
| BlogRepository.Page | pybossa/repositories/blog_repository.py:101 | `s[offset:]` or `s[offset:offset+limit]`: consecutive elements of `s` from the clamped offset, exactly `min(limit, len(s) - offset)` of them for a non-negative offset and limit, and all `len(s) - offset` remaining ones for a non-negative offset and no limit; at most `limit` of them, none when `offset >= len(s)`, and all of `s` for no limit and offset 0 |
| BlogRepository.PagesConcatenate | pybossa/repositories/blog_repository.py:101 | for a non-negative offset and limit, a page followed by everything after it is everything from the offset on |
| BlogRepository.NegativeOffsetCountsFromEnd | pybossa/repositories/blog_repository.py:101 | a negative offset with no limit gives the last `-offset` posts |
| BlogRepository.SortedListingUnique | pybossa/repositories/blog_repository.py:100 | two listings in strictly increasing id order with the same members are equal, so `sorted(..., key=id)` has one possible result |
| BlogRepository.PageKeepsOrder | pybossa/repositories/blog_repository.py:100-101 | a page of an id-sorted listing is id-sorted |
| BlogRepository.MemoryBlogRepository.constructor | pybossa/repositories/blog_repository.py:78-80 | empty store, counter zero |
| BlogRepository.MemoryBlogRepository.Clean | pybossa/repositories/blog_repository.py:82-84 | empty store, counter zero |
| BlogRepository.MemoryBlogRepository.NextId | pybossa/repositories/blog_repository.py:86-88 | the counter goes up by one and is returned |
| BlogRepository.MemoryBlogRepository.Get | pybossa/repositories/blog_repository.py:91-92 | present exactly for a stored post id, and then that post |
| BlogRepository.MemoryBlogRepository.GetBy | pybossa/repositories/blog_repository.py:94-96 | None exactly when no stored post matches; otherwise a stored post that matches |
| BlogRepository.MemoryBlogRepository.FilterBy | pybossa/repositories/blog_repository.py:98-102 | the page `[offset:]` or `[offset:offset+limit]` of the one listing of the matching posts in increasing id order; every element is a stored post that matches; the result is in strictly increasing id order |
| BlogRepository.MemoryBlogRepository.Save | pybossa/repositories/blog_repository.py:104-108 | WrongObjectError "saved" exactly for a non-Blogpost, with nothing changed; otherwise the save of `Store.Put`, and `get` of the saved id returns the post |
| BlogRepository.MemoryBlogRepository.Update | pybossa/repositories/blog_repository.py:110-112 | WrongObjectError "updated" for a non-Blogpost; otherwise `store[blogpost.id] = blogpost` with the counter unchanged, and `get` finds it |
| BlogRepository.MemoryBlogRepository.Delete | pybossa/repositories/blog_repository.py:114-116 | WrongObjectError "deleted" for a non-Blogpost, KeyError for an absent id, the store unchanged on either error; otherwise exactly that id is removed and `get` of it is None |

## Left out

- The database-backed `TaskRepository`, `ProjectRepository`, `UserRepository` and `BlogRepository` are not modelled. They hand their work to a SQLAlchemy session and its integrity errors.
- Uniqueness constraints, such as a unique `short_name`, are not modelled. Only the database schema enforces them, and the memory classes do not check them.
- `yielded=True` returns a generator in `filter_tasks_by` and `filter_task_runs_by`. The model returns the same elements as a finite sequence, so laziness is not modelled.
- Python 2 dictionary iteration order is unspecified. Internally the model lists entities in ascending key order. The repositories' unsorted queries promise no order: `get_by`, `get_by_name`, `get_by_shortname`, `get_all`, `search_by_name`, the task repository's `filter_tasks_by` and `filter_task_runs_by`, and the `filter_by` of the project, user and category stores. The listings among them are specified by membership and by length (one entry per matching key) only; the single-result ones by what they return, a stored match or None. Which match `pop()` returns is not specified. The blog repository's `filter_by` sorts by id, so its order is specified.
- Object aliasing is not modelled. `update_tasks_redundancy` mutates the task objects that the dictionary holds. The model writes updated task values back under their keys, which gives the same final dictionary.
- A getattr on an attribute the object lacks raises AttributeError in the source. The model treats it as "does not match". Matches: the filter test has no error path.
- UserRepository.SearchHit: a `name` or `fullname` that is absent or not a string counts as not containing the keyword. The source would raise. The `or` is still applied to both tests.
- UserRepository.Lower: lower-cases ASCII letters only, not full Unicode case folding.
- Attribute values are `None`, booleans, integers and strings. Floats, dates and other column types are not modelled. Equality follows Python's rule `True == 1` and `False == 0`.
- The class check compares the class tag exactly. Subclasses of the model classes, for which `isinstance` would also succeed, are not modelled.
- Counters are unbounded naturals. Python integers do not overflow.
- An object's class name comes from its tag (`ClassName`). The `__class__.__name__` of other classes is passed in as a string.

## Findings

| source | as written | input that shows it | evidently intended | confidence | as-written member | corrected member |
|---|---|---|---|---|---|---|
| pybossa/repositories/task_repository.py:138-139,144-145,147-153 | `__init__` and `clean` set `task_coun` and `taskrun_coun`, but `_next_task_id` and `_next_taskrun_id` increment `task_count` and `taskrun_count`, which were never set | a fresh `MemoryTaskRepository` and `save(Task(id=None))`: `self.task_count += 1` raises AttributeError | the counters start at 0 under the names the id generators use, so the first fresh task or run id is 1 | not executed | TaskRepository.FreshIdAsWrittenRaises | TaskRepository.MemoryTaskRepository.NextTaskId |
