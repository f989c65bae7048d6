# Blog and news service: the unit of work and the four services

This project models the core of a blog/news back end in Dafny.
Posts have comments, tags and categories. Every service call runs in one or more
unit-of-work scopes. A scope opens a database session and binds one repository per
table. It commits when it ends normally, rolls back when an exception leaves it, and
always closes the session.

The model has these parts:

- `Tables` is the repository contract every table shares. A table holds rows in
  insertion order and the next id to assign. The reads are `find_one` (the first match,
  or nothing), `find_some` (every match, in table order) and get-by-id. The writes are
  `add_one`, `update` (rewrites the matched rows and returns them) and `delete`
  (removes the matched rows and returns them).
- `Database` is the store: four entity tables and two join tables
  (post–tag, post–category). `Store.Valid` is what the store keeps true:
  - ids increase;
  - one join record per pair (the composite primary key);
  - category names are unique (the unique constraint on `categories.name`);
  - a reply stays on the post of the comment it answers.

  The same module holds what get-posts-by-tag/category and the counts share, and
  linking/unlinking a join record.
- `PostSchema` holds the post enumerations and the length constraints and defaults
  of `PostBase`/`PostCreate`. `PostUpdate` has every field optional and no author.
- `UnitOfWork` has two classes:
  - `AbstractUnitOfWork`: entering yields itself and exiting rolls back.
  - `CachedUnitOfWork`: fields for the committed store, the session's working view,
    the phase, the session counter, a log of begin/commit/rollback/close calls, and the
    six repository bindings. `Enter`, `Commit`, `Rollback`, `Close` and `Exit` update
    them in place. The repository writes change only the working view. The store's own
    constraints can refuse a write with `Integrity`.
- `PostService`, `CategoryService`, `CommentService` and `TagService` each have three
  kinds of member:
  - A **method per service call**, written as the source's sequence of scopes,
    including the loops of get-posts-by-tag/category and of the counts. Each is proved
    to return, and to leave committed, exactly what a **function on the store**
    describes (an `Effect`: the result or error, and the committed store after it).
  - **Lemmas about those functions**, stating what the service promises:
    - 404 exactly when the id is missing;
    - 409 rules;
    - only the targeted row changes;
    - idempotent linking;
    - ranking and slicing of popular tags;
    - the store staying valid.

Errors are values: `NotFound` (404), `Conflict` (409), `BadRequest` (400),
`Validation` (a schema refusing a body), `Integrity` (a store constraint refusing a
write) and `StorageFault` (commit or rollback itself raising).

## Model

| member | source | states |
|---|---|---|
| Tables.FindOne | app/services/category.py:31-34 | find_one yields a row satisfying the predicate, and nothing exactly when no row does |
| Tables.FindSome | app/services/post.py:33-36 | find_some yields exactly the rows satisfying the predicate, never more rows than the table has |
| Tables.Lookup | app/services/post.py:15-23 | the row with that id, or NotFound exactly when no row has that id |
| Tables.FindSomeAll | app/services/post.py:25-31 | a predicate every row satisfies (the empty dictionary) selects the whole table, in order |
| Tables.SelectById | app/services/post.py:56 | on a table with increasing ids, selecting by id gives exactly the one row with that id, or nothing |
| Tables.InsertFacts | app/services/post.py:12 | add_one: the new row is found under the next id, every other id finds what it found before, ids stay increasing |
| Tables.UpdateById | app/services/post.py:49 | update by id: the row with that id has its fields rewritten and is what update returns; no row, no change; every other row unchanged |
| Tables.DeleteByIdFacts | app/services/post.py:56 | delete by id: that row is gone and is what delete returns; every other row is still found |
| PostSchema.ParseStatus | app/database/schemas/post.py:11-14 | exactly the strings "draft", "published" and "archived" name a status |
| PostSchema.ParseType | app/database/schemas/post.py:17-21 | exactly the strings "article", "news", "tutorial" and "review" name a type |
| PostSchema.EnumValuesRoundTrip | app/database/schemas/post.py:11-21 | a member and its string value map to each other in both directions, for both enumerations |
| PostSchema.ParsePostCreate | app/database/schemas/post.py:24-36 | a create body is accepted exactly when the title has 3 to 255 characters and the content at least 10; otherwise Validation; type defaults to article, status to draft, other fields are kept |
| PostSchema.ApplyUpdate | app/database/schemas/post.py:39-46 | each field the update sets to a value takes it, every other field keeps the old one, the author never changes, and a valid post stays valid under a valid update |
| Database.PostsForSkipsMissing | app/services/category.py:76-82 | the posts collected for a list of post ids are those of the ids that still have a post, in list order |
| Database.PostsForAllPresent | app/services/tag.py:76-82 | when every id has a post, one post per id, each the post with that id, in order |
| Database.CollectPosts | app/services/category.py:76-82 | the loop over post ids returns exactly the posts those ids still find, in order |
| Database.RelatedPostsFacts | app/services/tag.py:65-82 | posts of a tag or category: the linked posts that still exist, in join-record order; each a stored post with an edge to it; never more than the edges; one per edge when all exist |
| Database.CountIsDistinctPosts | app/database/models/category.py:20-25 | with one join record per pair, the number of records for a target is the number of distinct posts linked to it |
| Database.LinkOnceFacts | app/services/post.py:90-101 | linking returns the pair's record, leaves exactly one record for the pair and every other record, keeps one record per pair, and linking again changes nothing |
| Database.PairIsSingle | app/database/models/category.py:24-25 | with the composite key, selecting a present pair gives just its record |
| Database.UnlinkFacts | app/services/post.py:107-110 | unlinking removes exactly the records of that pair and returns them; every other record stays; unlinking again returns nothing and changes nothing |
| UnitOfWork.AbstractUnitOfWork.Enter | app/core/utils/unit_of_work.py:32-33 | entering yields the unit of work itself |
| UnitOfWork.AbstractUnitOfWork.Exit | app/core/utils/unit_of_work.py:35-36 | the default exit rolls back whatever happened in the scope |
| UnitOfWork.CachedUnitOfWork.constructor | app/core/utils/unit_of_work.py:48-53 | a new unit of work holds the cache handle, has no session yet and nothing bound |
| UnitOfWork.CachedUnitOfWork.GetRepository | app/core/utils/unit_of_work.py:55-58 | get_repository builds a repository of the asked-for class over the current session and the shared cache |
| UnitOfWork.CachedUnitOfWork.Enter | app/core/utils/unit_of_work.py:60-77 | a fresh session (one never logged before), all six repositories bound to it and the cache, the session seeing the committed store, the unit of work returned |
| UnitOfWork.CachedUnitOfWork.Commit | app/core/utils/unit_of_work.py:89-90 | commit makes the session's writes the committed state, unless it raises |
| UnitOfWork.CachedUnitOfWork.Rollback | app/core/utils/unit_of_work.py:92-93 | rollback discards the session's writes and leaves the committed state as it was |
| UnitOfWork.CachedUnitOfWork.Close | app/core/utils/unit_of_work.py:86-87 | closing the session drops whatever was not committed |
| UnitOfWork.CachedUnitOfWork.Exit | app/core/utils/unit_of_work.py:79-87 | commit on a normal exit, rollback on an exception, close in every case even when commit or rollback raises; the exception leaving the scope is that fault if any, else the original one |
| UnitOfWork.CachedUnitOfWork.AddCategory | app/database/models/category.py:11 | the store refuses, with Integrity and no change, an insert that would give two categories one name |
| UnitOfWork.CachedUnitOfWork.UpdateCategories | app/database/models/category.py:11 | the store refuses, with Integrity and no change, an update that would give two categories one name |
| UnitOfWork.CachedUnitOfWork.AddPostCategory | app/database/models/category.py:24-25 | the store refuses a second record for the same (post_id, category_id) |
| UnitOfWork.CachedUnitOfWork.AddPost | app/services/post.py:12 | posts.add_one inserts the row under the next id in the session's view, returns that id, and changes no other table |
| UnitOfWork.CachedUnitOfWork.UpdatePosts | app/services/post.py:49 | posts.update rewrites the matched rows in the session's view and returns them as rewritten; nothing else changes |
| UnitOfWork.CachedUnitOfWork.DeletePosts | app/services/post.py:56 | posts.delete removes the matched rows from the session's view and returns them; nothing else changes |
| UnitOfWork.CachedUnitOfWork.AddComment | app/services/comment.py:32 | comments.add_one inserts under the next id and returns it; nothing else changes |
| UnitOfWork.CachedUnitOfWork.UpdateComments | app/services/comment.py:61 | comments.update rewrites the matched rows and returns them as rewritten; nothing else changes |
| UnitOfWork.CachedUnitOfWork.DeleteComments | app/services/comment.py:68 | comments.delete removes the matched rows and returns them; nothing else changes |
| UnitOfWork.CachedUnitOfWork.AddTag | app/services/tag.py:18 | tags.add_one inserts under the next id and returns it; nothing else changes |
| UnitOfWork.CachedUnitOfWork.UpdateTags | app/services/tag.py:55 | tags.update rewrites the matched rows and returns them as rewritten; nothing else changes |
| UnitOfWork.CachedUnitOfWork.DeleteTags | app/services/tag.py:62 | tags.delete removes the matched rows and returns them; nothing else changes |
| UnitOfWork.CachedUnitOfWork.DeleteCategories | app/services/category.py:62 | categories.delete removes the matched rows and returns them; nothing else changes |
| UnitOfWork.CachedUnitOfWork.AddPostTag | app/services/post.py:97-100 | post_tags.add_one appends the record and returns it, or is refused with Integrity and no change when the pair is present |
| UnitOfWork.CachedUnitOfWork.DeletePostTags | app/services/post.py:107-110 | post_tags.delete removes exactly the matched records, keeps the others in order, and returns the removed ones |
| UnitOfWork.CachedUnitOfWork.DeletePostCategories | app/services/post.py:141-144 | post_categories.delete removes exactly the matched records, keeps the others in order, and returns the removed ones |
| UnitOfWork.AbortedScopeLeavesNoTrace | app/core/utils/unit_of_work.py:79-87 | a scope that writes and then raises leaves the committed store as it was and re-raises the same exception |
| UnitOfWork.CommittedScopeKeepsWrites | app/core/utils/unit_of_work.py:79-87 | a scope that writes and ends normally commits exactly its write |
| PostService.PostsMatching | app/services/post.py:25-31 | get_posts without filters returns every post in table order; with filters, exactly the posts matching every given key |
| PostService.CreatePostFacts | app/services/post.py:8-13 | create_post returns a fresh id under which the post is found; no other post or table changes; the store stays valid |
| PostService.RewritePostFacts | app/services/post.py:43-50 | the shared shape of update/publish/archive: NotFound exactly when no post has the id, with nothing changed; otherwise just that post is rewritten and returned, everything else unchanged |
| PostService.UpdatePostFacts | app/services/post.py:43-50 | update_post: NotFound exactly when missing; the stored post takes exactly the fields the update sets, the author never changes, an empty update changes nothing, posts stay within the length constraints |
| PostService.SetStatusFacts | app/services/post.py:59-77 | publish_post and archive_post: NotFound exactly when missing; otherwise the stored post differs only in its status, which is the given one |
| PostService.DeletePostFacts | app/services/post.py:52-57 | delete_post: NotFound exactly when missing; otherwise returns the post, which is gone; every other post and table unchanged |
| PostService.AddTagFacts | app/services/post.py:79-101 | add_tag_to_post: NotFound exactly when the post or the tag is missing; otherwise one edge for the pair, returned; other edges unchanged; adding again changes nothing and returns the same |
| PostService.RemoveTagFacts | app/services/post.py:103-111 | remove_tag_from_post: NotFound exactly when the post is missing (the tag is not checked); exactly the pair's edges go and are returned; removing again returns nothing |
| PostService.AddCategoryFacts | app/services/post.py:113-135 | add_category_to_post: the same checks, the same single edge and the same idempotence on post–category edges |
| PostService.RemoveCategoryFacts | app/services/post.py:137-145 | remove_category_from_post: NotFound exactly when the post is missing (the category is not checked); exactly the pair's edges go |
| PostService.CreateThenPublish | app/services/post.py:59-67 | a post created without a status is a draft; publishing it returns and stores it published with every other field as created |
| PostService.CreatePost | app/services/post.py:8-13 | one committed scope that inserts the post and returns its id |
| PostService.GetPostById | app/services/post.py:15-23 | the post, or NotFound raised out of a rolled-back scope; nothing committed changes |
| PostService.GetPosts | app/services/post.py:25-31 | the posts PostsMatching describes; nothing committed changes |
| PostService.GetPostsByAuthor | app/services/post.py:33-36 | exactly the posts of that author; nothing committed changes |
| PostService.GetPublishedPosts | app/services/post.py:38-41 | exactly the published posts; nothing committed changes |
| PostService.RewritePost | app/services/post.py:43-50 | the shared shape of update/publish/archive: the existence check in its own scope, then posts.update by id in a second scope, with the effect RewritePostFacts describes |
| PostService.UpdatePost | app/services/post.py:43-50 | the existence check, then the update scope, with the effect UpdatePostFacts describes |
| PostService.PublishPost | app/services/post.py:59-67 | the existence check, then status set to published |
| PostService.ArchivePost | app/services/post.py:69-77 | the existence check, then status set to archived |
| PostService.DeletePost | app/services/post.py:52-57 | the existence check, then the delete scope |
| PostService.AddTagToPost | app/services/post.py:79-101 | post check, then in one scope the tag check, the existing edge returned if any, else the edge added |
| PostService.RemoveTagFromPost | app/services/post.py:103-111 | post check, then delete of the pair's edges |
| PostService.AddCategoryToPost | app/services/post.py:113-135 | post check, then in one scope the category check, the existing edge returned if any, else the edge added |
| PostService.RemoveCategoryFromPost | app/services/post.py:137-145 | post check, then delete of the pair's edges |
| CategoryService.CategoryByName | app/services/category.py:31-34 | get_category_by_name returns a category with that name, and None exactly when none has it; it never raises |
| CategoryService.CategoryCounts | app/services/category.py:88-97 | one entry per category, in table order, with its id, name, description and the number of its post–category edges |
| CategoryService.CreateCategoryFacts | app/services/category.py:7-19 | create_category: Conflict, with nothing added, exactly when a category has the name; otherwise found under the next id; others unchanged; the store (unique names included) stays valid |
| CategoryService.UpdateCategoryErrors | app/services/category.py:41-56 | update_category: NotFound exactly when missing; Conflict exactly when the new name is truthy and another category has it; the unique constraint refuses only the empty name; a refusal changes nothing |
| CategoryService.NameTakenIffOther | app/services/category.py:44-50 | with unique names, the name check fires exactly when the new name is truthy and a category with a different id has it |
| CategoryService.UpdateCategoryKeepsOwnName | app/services/category.py:44-50 | renaming a category to its own name is not a conflict and goes through |
| CategoryService.UpdateCategoryWrites | app/services/category.py:52-56 | an update that goes through rewrites that category with the fields set and returns it; others unchanged; the store stays valid |
| CategoryService.DeleteCategoryFacts | app/services/category.py:58-63 | delete_category: NotFound exactly when missing; otherwise returns the category, which is gone; others unchanged; the store stays valid |
| CategoryService.PostsByCategoryFacts | app/services/category.py:65-82 | get_posts_by_category: NotFound exactly when the category is missing; otherwise the linked posts that still exist, in edge order, at most one per edge, one per edge when all exist |
| CategoryService.CountsAreDistinctPosts | app/services/category.py:84-99 | each category's posts_count is the number of distinct posts in it |
| CategoryService.GetCategoryById | app/services/category.py:21-29 | the category, or NotFound out of a rolled-back scope |
| CategoryService.GetCategoryByName | app/services/category.py:31-34 | the category CategoryByName describes; nothing committed changes |
| CategoryService.GetCategories | app/services/category.py:36-39 | every category in table order; nothing committed changes |
| CategoryService.CreateCategory | app/services/category.py:7-19 | name check in its own scope, then the insert scope, with the effect CreateCategoryFacts describes |
| CategoryService.UpdateCategory | app/services/category.py:41-56 | existence check, name check when the name is truthy, then the update scope |
| CategoryService.DeleteCategory | app/services/category.py:58-63 | existence check, then the delete scope |
| CategoryService.GetPostsByCategory | app/services/category.py:65-82 | existence check, then the loop over the edges' post ids, with an empty list returned early |
| CategoryService.GetCategoriesWithPostsCount | app/services/category.py:84-99 | the loop over categories builds exactly CategoryCounts; nothing committed changes |
| CommentService.CreateCommentEffect | app/services/comment.py:7-33 | create_comment: NotFound exactly when the post, or a truthy parent, is missing; BadRequest exactly when the parent is on another post; accepted exactly when the post exists and the parent is None, 0 or a comment on the same post; a refusal changes nothing |
| CommentService.CommentsByPost | app/services/comment.py:45-48 | exactly the comments on that post |
| CommentService.Replies | app/services/comment.py:50-53 | exactly the comments whose parent is that comment |
| CommentService.InsertKeepsRepliesOnPost | app/services/comment.py:18-30 | a comment whose parent passed the checks keeps every reply on its parent's post |
| CommentService.CreateCommentFacts | app/services/comment.py:32-33 | an accepted comment is found under the next id with the content, post, author and parent it was sent with, and approved (the column's default in the comment model); other comments and tables unchanged; the store stays valid |
| CommentService.ReplyToNewComment | app/services/comment.py:50-53 | after creating a comment and a reply to it, the replies of the first are exactly the second |
| CommentService.RepliesAreOnParentPost | app/services/comment.py:26-30 | on a valid store, every reply to a comment is on that comment's post |
| CommentService.RewriteCommentFacts | app/services/comment.py:55-62 | rewriting a comment: NotFound exactly when missing, with nothing changed; otherwise just that comment is rewritten and returned |
| CommentService.UpdateCommentFacts | app/services/comment.py:55-62 | update_comment: only the content changes, and only when the update sets it |
| CommentService.ModerateFacts | app/services/comment.py:71-89 | approve_comment and reject_comment: NotFound exactly when missing; otherwise only is_approved changes, to true or false |
| CommentService.DeleteCommentFacts | app/services/comment.py:64-69 | delete_comment: NotFound exactly when missing; otherwise returns the comment, which is gone; the store stays valid |
| CommentService.CreateComment | app/services/comment.py:7-33 | one scope: post check, then parent checks when the parent is truthy, then the insert |
| CommentService.GetCommentById | app/services/comment.py:35-43 | the comment, or NotFound out of a rolled-back scope |
| CommentService.GetCommentsByPost | app/services/comment.py:45-48 | the comments CommentsByPost describes; nothing committed changes |
| CommentService.GetReplies | app/services/comment.py:50-53 | the comments Replies describes; nothing committed changes |
| CommentService.RewriteComment | app/services/comment.py:55-62 | the shared shape of update/approve/reject: the existence check in its own scope, then comments.update by id in a second scope, with the effect RewriteCommentFacts describes |
| CommentService.UpdateComment | app/services/comment.py:55-62 | existence check, then the update scope |
| CommentService.ApproveComment | app/services/comment.py:71-79 | existence check, then is_approved set to true |
| CommentService.RejectComment | app/services/comment.py:81-89 | existence check, then is_approved set to false |
| CommentService.DeleteComment | app/services/comment.py:64-69 | existence check, then the delete scope |
| TagService.TagByName | app/services/tag.py:31-34 | get_tag_by_name returns a tag with that name, and None exactly when none has it; it never raises |
| TagService.TagCounts | app/services/tag.py:88-96 | one entry per tag, in table order, with its id, name and number of post–tag edges |
| TagService.PyTake | app/services/tag.py:100 | the slice [:limit] is a prefix, of length limit capped at the list's, and for a negative limit the list without its last -limit entries |
| TagService.SortPermutes | app/services/tag.py:98 | the sort only reorders: same entries, same multiplicities |
| TagService.SortNonIncreasing | app/services/tag.py:98 | the sorted list is ordered by count, highest first |
| TagService.SortIsStable | app/services/tag.py:98 | entries with equal counts keep their input order (increasing ids) |
| TagService.PopularTagsLength | app/services/tag.py:84-100 | get_popular_tags returns limit entries, or every tag when there are fewer, and never more than there are tags |
| TagService.PopularTagsRanked | app/services/tag.py:84-100 | the result is ordered by count, highest first, and by id among equal counts |
| TagService.PopularTagsEntries | app/services/tag.py:88-96 | each entry is a stored tag with its name and its number of post–tag edges |
| TagService.PopularTagsAreTop | app/services/tag.py:98-100 | the result is the front of a permutation of all entries, and no entry cut off has a higher count than one returned |
| TagService.CreateTagFacts | app/services/tag.py:7-19 | create_tag: Conflict, with nothing added, exactly when a tag has the name; otherwise found under the next id; unique names, and unique non-empty names, stay unique |
| TagService.UpdateTagErrors | app/services/tag.py:41-56 | update_tag: NotFound exactly when missing; when no two tags share a non-empty name, Conflict exactly when the new name is truthy and another tag has it; a refusal changes nothing |
| TagService.NameTakenIffOther | app/services/tag.py:44-50 | when no two tags share a non-empty name, the name check fires exactly when the new name is truthy and a tag with a different id has it |
| TagService.UpdateTagKeepsOwnName | app/services/tag.py:44-50 | when no two tags share a non-empty name, renaming a tag to its own name is not a conflict; an empty own name is not checked at all |
| TagService.UpdateTagWrites | app/services/tag.py:52-56 | an update that goes through rewrites that tag and returns it; others unchanged; non-empty names that were unique stay unique; all names that were unique stay unique unless the new name is empty |
| TagService.UpdateKeepsUniqueNamedTags | app/services/tag.py:41-56 | the name check keeps non-empty tag names unique across an update, whatever the new name |
| TagService.UpdateKeepsUniqueTagNames | app/services/tag.py:41-56 | with all names unique and a new name other than the empty one, an update that passes the check keeps all names unique |
| TagService.EmptyNameSkipsCheck | app/services/tag.py:44 | an empty new name skips the name check: renaming a tag to "" when another tag is named "" succeeds and leaves two tags with one name |
| TagService.DeleteTagFacts | app/services/tag.py:58-63 | delete_tag: NotFound exactly when missing; otherwise returns the tag, which is gone; others unchanged |
| TagService.PostsByTagFacts | app/services/tag.py:65-82 | get_posts_by_tag: NotFound exactly when the tag is missing; otherwise the linked posts that still exist, in edge order, at most one per edge, one per edge when all exist |
| TagService.GetTagById | app/services/tag.py:21-29 | the tag, or NotFound out of a rolled-back scope |
| TagService.GetTagByName | app/services/tag.py:31-34 | the tag TagByName describes; nothing committed changes |
| TagService.GetTags | app/services/tag.py:36-39 | every tag in table order; nothing committed changes |
| TagService.CreateTag | app/services/tag.py:7-19 | name check in its own scope, then the insert scope |
| TagService.UpdateTag | app/services/tag.py:41-56 | existence check, name check when the name is truthy, then the update scope |
| TagService.DeleteTag | app/services/tag.py:58-63 | existence check, then the delete scope |
| TagService.GetPostsByTag | app/services/tag.py:65-82 | existence check, then the loop over the edges' post ids, with an empty list returned early |
| TagService.GetPopularTags | app/services/tag.py:84-100 | the counting loop builds exactly TagCounts; then the stable sort by count, highest first, then the [:limit] slice |

## Left out

- Asynchrony, the Redis cache (its handle is only passed to the repositories) and the HTTP layer (routers, role checks, pagination, response schemas) are not modelled.
- The repository implementation is not part of this model. `find_one` is taken to return the first match in table order, and `update`/`delete` to return lists of rows.
- For a join table, `add_one` is taken to return the new join record (post.py:97 and :131). For an entity table it returns the new id (post.py:12). The "adding again returns the same" part of PostService.AddTagFacts and PostService.AddCategoryFacts rests on this.
- The post–tag model is not part of this model. `post_tags` is given a (post_id, tag_id) composite key like the one `PostCategory` declares for `post_categories`.
- PostSchema.ApplyUpdate: an explicit `null` for title, content, type or status is not modelled. `PostUpdate` accepts one, and `model_dump(exclude_unset=True)` passes it on to `update`. The post model, which would say whether the store accepts a null there, is not part of this model. Only `publication_date` distinguishes "not sent" from "null".
- PostService.UpdatePostFacts: for the same reason, "posts stay within the length constraints" covers only updates without such nulls.
- Timestamps (`created_at`, `updated_at`) and the `publication_date` datetime are left out. A publication date is an optional integer.
- Id sequences are not modelled apart from the tables. A table's next id is part of the session's view, so a rollback restores it, and the model hands out a rolled-back insert's id again. A database sequence would not reuse it.
- Foreign keys are not enforced on writes. A comment's `parent_id` of 0 skips the service's checks and is stored as given. Edges to deleted posts, tags or categories stay in place.
- Category names are modelled without their 100-character column limit.
- The comment, tag and category request schemas are not part of this model. A comment update sets only the content, a tag has only a name, and a category has a name and an optional description. An update with an explicitly null name is not modelled.
- The tag model file is not part of this model. The store is taken not to enforce unique tag names, so only the service's check keeps them unique.
- PostService, CategoryService, CommentService, TagService: the service methods take commit and rollback not to raise. The unit of work models such a fault (`Exit`'s `fault` flag), but the services' effects do not.
- TagService.UpdateTagErrors: the "409 exactly when another tag has the name" direction is stated only for stores where no two tags share a non-empty name. The service keeps that (TagService.CreateTagFacts, TagService.UpdateKeepsUniqueNamedTags). Without it, the check looks only at the first tag carrying the name.
- TagService.UpdateTagKeepsOwnName: stated under the same condition, for the same reason.
- TagService.PopularTagsRanked: the tie order by id is stated for stores whose tables keep increasing ids (`Store.Valid`).
- AbstractUnitOfWork's constructor is abstract in the source. The model gives it a trivial constructor so that Enter and Exit can be stated.
