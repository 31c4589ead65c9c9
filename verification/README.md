# CollaborateSpace core, modelled in Dafny

CollaborateSpace is a talent-exchange site. Project owners post projects
and requirements, and developers browse, filter, join and comment. This
project models the logic of its React front end and its Spring back end.

The front end has four pieces:

- the requirement browser and the project list, each a conjunctive filter
  over the loaded items, with tag toggling, reset buttons and derived
  choice lists;
- the create and edit project dialogs: the form state, the comma-separated
  tag text and its parsing, and the error text;
- the requirements tab: the owner check and the open/closed split;
- the authentication context: the session state machine over the user,
  the `loading` flag and the stored `jwt` token.

The back end has three services and one repository:

- the project service: create, read, patch, delete, team and chat
  membership, and the list filters;
- the requirement service: the list of other owners' requirements,
  create, patch, delete, assign and status change;
- the comment service: create, author-only delete, and listing;
- the requirement repository: the nullable-parameter search and the two
  derived look-ups.

The files follow the source, one module per source file:

- `Wrappers` (`wrappers.dfy`): `Option`, `Result` and `Outcome`
- `Seqs` (`seqs.dfy`): `filter` and what is proved about it; subsequences; removal of the first occurrence; `[...new Set(s)]`
- `Text` (`text.dfy`): `trim`, `toLowerCase`, `includes`, `split`, `join` and `sort` on strings
- `BrowseRequirements` (`browse_requirements.dfy`): `BrowseRequirements.js`
- `AllProjects` (`all_projects.dfy`): `AllProjectsPage.js`
- `ProjectForms` (`project_forms.dfy`): what the two project dialogs share
- `CreateProjectModal` (`create_project_modal.dfy`): the create dialog
- `EditProjectModal` (`edit_project_modal.dfy`): the edit dialog
- `RequirementsTab` (`requirements_tab.dfy`): `RequirementsTab.js`
- `AuthContext` (`auth_context.dfy`): `AuthContext.js`
- `Store` (`store.dfy`): the back end's tables, as one `Database` object, and the service exceptions
- `ProjectService` (`project_service.dfy`): `ProjectServiceImpl.java`
- `RequirementRepository` (`requirement_repository.dfy`): `RequirementRepository.java`
- `RequirementService` (`requirement_service.dfy`): `RequirementServiceImpl.java`
- `CommentService` (`comment_service.dfy`): `CommentServiceImpl.java`

How each kind of code is modelled:

- **Code that reassigns variables step by step becomes a method.** The
  two `applyFilters`, the tag-catalogue loop, the two dialogs' handlers,
  the auth provider and the service methods that write the tables are
  methods. Each one's contract ties its result, or its new state, to a
  specification function.
- **Expressions become functions.**
- **The back end's tables are the maps of one `Database` object.** A
  service method `modifies` that object and states the whole new state on
  every path, failures included. Each failure is a `ServiceError`.
  `Store.ClassOf` says which Java exception class each error is thrown as.
- **HTTP outcomes and the clock are arguments:**
  - a request's success or rejection;
  - the profile fetched after sign-in;
  - the moment a comment is created.

## Model

| member | source | states |
|---|---|---|
| `BrowseRequirements.ApplyFilters` | CSpaceFrontEnd/my_app/src/pages/BrowseRequirements.js:52-79 | Up to four passes (status, skill, search, tags), each run only when its axis constrains. Together they give exactly `Visible`: the requirements matching all four axes, in their original order. |
| `BrowseRequirements.StatusPass` | CSpaceFrontEnd/my_app/src/pages/BrowseRequirements.js:55-57 | A status other than ALL refines the list by equal status; ALL leaves it as it is. |
| `BrowseRequirements.SkillPass` | CSpaceFrontEnd/my_app/src/pages/BrowseRequirements.js:59-61 | A skill level other than ALL refines the list by equal priority; ALL leaves it as it is. |
| `BrowseRequirements.SearchPass` | CSpaceFrontEnd/my_app/src/pages/BrowseRequirements.js:63-70 | A non-empty term refines the list by the search test; an empty term leaves it as it is. |
| `BrowseRequirements.TagsPass` | CSpaceFrontEnd/my_app/src/pages/BrowseRequirements.js:72-76 | Selected tags refine the list by the any-of tag test; none leaves it as it is. After all four axes the list is the matching list. |
| `BrowseRequirements.NextPass` | CSpaceFrontEnd/my_app/src/pages/BrowseRequirements.js:53-76 | Filtering by one more axis's test turns the list for the first n axes into the list for n + 1. An axis that does not constrain changes nothing. |
| `BrowseRequirements.VisibleIsSubsequence` | CSpaceFrontEnd/my_app/src/pages/BrowseRequirements.js:52-79 | The filtered list is a subsequence of the input: order is kept and nothing is added. |
| `BrowseRequirements.VisibleStatusAndSkill` | CSpaceFrontEnd/my_app/src/pages/BrowseRequirements.js:55-61 | Every shown requirement has the selected status, unless the status is ALL. Likewise for the selected priority. |
| `BrowseRequirements.VisibleSearch` | CSpaceFrontEnd/my_app/src/pages/BrowseRequirements.js:63-70 | With a non-empty term, a requirement passing the other axes is shown iff the lower-cased term occurs in its lower-cased title, description or non-empty project name. |
| `BrowseRequirements.VisibleTags` | CSpaceFrontEnd/my_app/src/pages/BrowseRequirements.js:72-76 | With tags selected, a requirement passing the other axes is shown iff it has tags and some selected tag is among them. |
| `BrowseRequirements.SomeIncludedExists` | CSpaceFrontEnd/my_app/src/pages/BrowseRequirements.js:74 | The left-to-right `some` scan holds iff some selected tag is in the requirement's tags. |
| `BrowseRequirements.VisibleUnconstrained` | CSpaceFrontEnd/my_app/src/pages/BrowseRequirements.js:52-79 | Status ALL, skill ALL, an empty term and no tags show the input unchanged. |
| `BrowseRequirements.OpenHighScenario` | CSpaceFrontEnd/my_app/src/pages/BrowseRequirements.js:55-61 | Take status OPEN and skill HIGH over an open/high, an open/low and a closed/high requirement, in that order. Only the first is shown. |
| `BrowseRequirements.ToggleTag` | CSpaceFrontEnd/my_app/src/pages/BrowseRequirements.js:81-88 | The toggled tag's membership flips, and an absent tag is appended at the end. Every other tag's membership and every other field are kept. |
| `BrowseRequirements.ToggleTagTwiceAbsent` | CSpaceFrontEnd/my_app/src/pages/BrowseRequirements.js:81-88 | Toggling an unselected tag twice gives back exactly the same filters. |
| `BrowseRequirements.ToggleTagTwice` | CSpaceFrontEnd/my_app/src/pages/BrowseRequirements.js:81-88 | Toggling any tag twice gives back the same set of selected tags. |
| `BrowseRequirements.ClearFilters` | CSpaceFrontEnd/my_app/src/pages/BrowseRequirements.js:90-97 | The reset is status OPEN, skill ALL, no search and no tags. |
| `BrowseRequirements.ClearFiltersShowsOpen` | CSpaceFrontEnd/my_app/src/pages/BrowseRequirements.js:12-17 | The reset equals the initial filter state. It shows exactly the open requirements, not all of them. |
| `BrowseRequirements.BuildTagCatalogue` | CSpaceFrontEnd/my_app/src/pages/BrowseRequirements.js:36-42 | The catalogue built by the set-and-sort loop is strictly sorted, so each tag appears once. It holds exactly the tags found in the requirements' tag arrays. |
| `BrowseRequirements.SkillLevelLabel` | CSpaceFrontEnd/my_app/src/pages/BrowseRequirements.js:108-115 | HIGH, MEDIUM and LOW are shown as Expert, Intermediate and Beginner. |
| `BrowseRequirements.SkillLevelLabelChanges` | CSpaceFrontEnd/my_app/src/pages/BrowseRequirements.js:108-115 | The label differs from the priority iff the priority is one of the three known ones. Any other value is shown as it is. |
| `AllProjects.ApplyFilters` | CSpaceFrontEnd/my_app/src/pages/AllProjectsPage.js:43-73 | The search, category and tag passes each run only when their input is set. Together they give exactly the projects matching all three, in their original order. |
| `AllProjects.SearchPass` | CSpaceFrontEnd/my_app/src/pages/AllProjectsPage.js:47-54 | A query that is not blank refines the list by the keyword test; a blank one leaves it as it is. |
| `AllProjects.CategoryPass` | CSpaceFrontEnd/my_app/src/pages/AllProjectsPage.js:57-61 | A non-empty category refines the list by the category test; an empty one leaves it as it is. |
| `AllProjects.TagPass` | CSpaceFrontEnd/my_app/src/pages/AllProjectsPage.js:64-69 | A tag filter that is not blank refines the list by the tag test; a blank one leaves it as it is. After the third pass the list is the matching list. |
| `AllProjects.VisibleIsSubsequence` | CSpaceFrontEnd/my_app/src/pages/AllProjectsPage.js:43-73 | The filtered projects are a subsequence of the input. |
| `AllProjects.VisibleMatches` | CSpaceFrontEnd/my_app/src/pages/AllProjectsPage.js:43-73 | A project of the list is shown iff it passes all three filters. |
| `AllProjects.BlankSearchIgnored` | CSpaceFrontEnd/my_app/src/pages/AllProjectsPage.js:47 | A search of white space only shows the same list as an empty search. |
| `AllProjects.VisibleSearch` | CSpaceFrontEnd/my_app/src/pages/AllProjectsPage.js:47-54 | With a query that is not blank, a project passing the other filters is shown iff its lower-cased name, description or owner's full name contains the lower-cased query. |
| `AllProjects.VisibleCategory` | CSpaceFrontEnd/my_app/src/pages/AllProjectsPage.js:57-61 | With a non-empty category, a project passing the other filters is shown iff it has a category equal to the filter, ignoring case. |
| `AllProjects.VisibleTag` | CSpaceFrontEnd/my_app/src/pages/AllProjectsPage.js:64-69 | With a tag filter that is not blank, a project passing the other filters is shown iff one of its lower-cased tags contains the lower-cased filter. |
| `AllProjects.SomeTagContainsExists` | CSpaceFrontEnd/my_app/src/pages/AllProjectsPage.js:67 | The left-to-right `some` scan holds iff some tag contains the filter. |
| `AllProjects.ClearFilters` | CSpaceFrontEnd/my_app/src/pages/AllProjectsPage.js:80-84 | Search, category and tag all become empty. |
| `AllProjects.ClearFiltersShowsAll` | CSpaceFrontEnd/my_app/src/pages/AllProjectsPage.js:80-84 | After clearing, every project is shown, unchanged. |
| `AllProjects.PresentCategories` | CSpaceFrontEnd/my_app/src/pages/AllProjectsPage.js:91 | After `map` and `filter(Boolean)`, a value is listed iff it is the non-empty category of some project. |
| `AllProjects.Categories` | CSpaceFrontEnd/my_app/src/pages/AllProjectsPage.js:91 | The choices have no duplicates. A value is a choice iff it is the non-empty category of some project. |
| `AllProjects.CategoriesInFirstAppearanceOrder` | CSpaceFrontEnd/my_app/src/pages/AllProjectsPage.js:91 | Choices come in the order in which their categories first appear. |
| `Seqs.DistinctFrom` | CSpaceFrontEnd/my_app/src/pages/AllProjectsPage.js:91 | Spreading a set built from a list keeps each element that is not already in the set, once, and has no duplicates. |
| `Seqs.DistinctFromFirstAppearance` | CSpaceFrontEnd/my_app/src/pages/AllProjectsPage.js:91 | The kept elements come in the order of their first occurrence in the list. |
| `Seqs.DistinctFromIsSubsequence` | CSpaceFrontEnd/my_app/src/pages/AllProjectsPage.js:91 | The kept elements are a subsequence of the list. |
| `ProjectForms.ParseTags` | CSpaceFrontEnd/my_app/src/components/CreateProjectModal.js:21-24 | Every parsed tag is non-empty, has no white space at either end, and contains no comma. |
| `ProjectForms.ParseTagsInOrder` | CSpaceFrontEnd/my_app/src/components/CreateProjectModal.js:21-24 | Parsed tags keep the left-to-right order of the trimmed pieces. The pieces joined with commas are the input. |
| `ProjectForms.ParseTagsBlank` | CSpaceFrontEnd/my_app/src/components/CreateProjectModal.js:21-24 | A text parses to no tags iff every character is a comma or white space. The empty text is one such text. |
| `ProjectForms.ParseTagsExample` | CSpaceFrontEnd/my_app/src/components/CreateProjectModal.js:21-24 | The text "x, y" gives the tags "x" and "y". |
| `ProjectForms.Payload` | CSpaceFrontEnd/my_app/src/components/CreateProjectModal.js:26-31 | The payload copies name, description and category from the form and carries the parsed tags. |
| `ProjectForms.SetField` | CSpaceFrontEnd/CSpace-app/src/components/EditProjectModal.js:81-87 | The named field takes the value and every other field keeps its old value. |
| `ProjectForms.ErrorText` | CSpaceFrontEnd/my_app/src/components/CreateProjectModal.js:42 | A non-empty server message is shown, otherwise the fallback. The text is never empty when the fallback is not. |
| `ProjectForms.ParseJoinTags` | CSpaceFrontEnd/CSpace-app/src/components/EditProjectModal.js:49-52 | Round trip: parsing tags joined with ", " gives the same tags, provided each is non-empty, trimmed and comma-free. |
| `ProjectForms.TrimAllSplitJoin` | CSpaceFrontEnd/CSpace-app/src/components/EditProjectModal.js:49-51 | Splitting the joined text at commas and trimming each piece gives the tags back. |
| `ProjectForms.TrimAll` | CSpaceFrontEnd/my_app/src/components/CreateProjectModal.js:23 | Each piece is replaced by its trimmed form, position by position. |
| `CreateProjectModal.CreateProjectForm.constructor` | CSpaceFrontEnd/my_app/src/components/CreateProjectModal.js:5-12 | The dialog opens with four empty fields, not loading, and no error. |
| `CreateProjectModal.CreateProjectForm.Edit` | CSpaceFrontEnd/my_app/src/components/CreateProjectModal.js:48-52 | An input change sets one field of the form and nothing else. |
| `CreateProjectModal.CreateProjectForm.HandleSubmit` | CSpaceFrontEnd/my_app/src/components/CreateProjectModal.js:14-46 | The payload sent is built from the form. Afterwards loading is off. The error is empty after success, and after a rejection it is the server message or "Failed to create project". |
| `EditProjectModal.LoadedData` | CSpaceFrontEnd/CSpace-app/src/components/EditProjectModal.js:22-27 | A missing name, description or category becomes "". A tag array is shown joined with ", ", and a tag text as it is. |
| `EditProjectModal.LoadThenSaveKeepsTags` | CSpaceFrontEnd/CSpace-app/src/components/EditProjectModal.js:26 | Loading a project and saving it unchanged sends back the same tags, when the tags are well formed. |
| `EditProjectModal.EditProjectForm.constructor` | CSpaceFrontEnd/CSpace-app/src/components/EditProjectModal.js:5-13 | The dialog starts with an empty form, not loading, with no error, and still to be loaded. |
| `EditProjectModal.EditProjectForm.LoadEffect` | CSpaceFrontEnd/CSpace-app/src/components/EditProjectModal.js:15-33 | The form is loaded from the project only while `initialLoad` holds, and `initialLoad` then becomes false. Otherwise nothing changes. |
| `EditProjectModal.EditProjectForm.HandleInputChange` | CSpaceFrontEnd/CSpace-app/src/components/EditProjectModal.js:81-87 | Only the named field of the form changes. |
| `EditProjectModal.EditProjectForm.HandleSubmit` | CSpaceFrontEnd/CSpace-app/src/components/EditProjectModal.js:35-79 | An empty category sets "Please select a category" and sends nothing. Otherwise the payload is sent for the project's id, loading ends off, and the error follows the outcome. |
| `RequirementsTab.IsOwnerExactly` | CSpaceFrontEnd/CSpace-app/src/components/RequirementsTab.js:12 | `isOwner` holds iff a user, the project and its owner are present and the two ids are equal. |
| `RequirementsTab.SafeRequirements` | CSpaceFrontEnd/CSpace-app/src/components/RequirementsTab.js:14 | A value that is not an array is treated as the empty list. An array is kept as it is. |
| `RequirementsTab.ListsExact` | CSpaceFrontEnd/CSpace-app/src/components/RequirementsTab.js:15-16 | The open list holds exactly the items with status OPEN, and the closed list exactly those with status CLOSED, each in the original order. |
| `RequirementsTab.ListsPartition` | CSpaceFrontEnd/CSpace-app/src/components/RequirementsTab.js:15-16 | The lists are disjoint and together no longer than the input. When every status is OPEN or CLOSED they cover it. An item with any other status is in neither. |
| `RequirementsTab.NonArrayShowsNothing` | CSpaceFrontEnd/CSpace-app/src/components/RequirementsTab.js:14-16 | A prop that is not an array shows two empty lists. |
| `AuthContext.AuthProvider.constructor` | CSpaceFrontEnd/CSpace-app/src/context/AuthContext.js:6-8 | The provider mounts with no user, loading, over the browser's storage. |
| `AuthContext.AuthProvider.Startup` | CSpaceFrontEnd/CSpace-app/src/context/AuthContext.js:10-17 | The start-up effect makes the state transition `AfterStartup`. |
| `AuthContext.StartupWithoutToken` | CSpaceFrontEnd/CSpace-app/src/context/AuthContext.js:10-17 | Without a stored token, loading ends and nothing else changes, whatever a fetch would have returned. |
| `AuthContext.AfterStartup` | CSpaceFrontEnd/CSpace-app/src/context/AuthContext.js:10-17 | Start-up always ends with loading off. |
| `AuthContext.AuthProvider.LoadUser` | CSpaceFrontEnd/CSpace-app/src/context/AuthContext.js:19-29 | `loadUser` makes the state transition `AfterLoadUser`. |
| `AuthContext.AfterLoadUser` | CSpaceFrontEnd/CSpace-app/src/context/AuthContext.js:19-29 | A fetched profile becomes the user. A failed fetch removes "jwt" and keeps the user. Loading ends off on both paths, and no other storage key changes. |
| `AuthContext.AuthProvider.Login` | CSpaceFrontEnd/CSpace-app/src/context/AuthContext.js:31-46 | The response, or the rejection, is passed on unchanged. The state makes the transition `AfterAuth`. |
| `AuthContext.AuthFailureChangesNothing` | CSpaceFrontEnd/CSpace-app/src/context/AuthContext.js:42-45 | A rejected sign-in or sign-up leaves the state as it was. |
| `AuthContext.AuthStoresTokenOnlyWithJwt` | CSpaceFrontEnd/CSpace-app/src/context/AuthContext.js:37-40 | The token is stored only when the answer carries one. It then stays stored with the user signed in if the profile fetch succeeds, and is removed again if the fetch fails. |
| `AuthContext.AuthProvider.Register` | CSpaceFrontEnd/CSpace-app/src/context/AuthContext.js:48-72 | The normalised data is sent. The response is passed on and the state makes the same transition as for `login`. |
| `AuthContext.RegistrationData` | CSpaceFrontEnd/CSpace-app/src/context/AuthContext.js:51-56 | The name is the trimmed name and the e-mail is the trimmed, lower-cased e-mail, so both are trimmed and the e-mail has no upper-case letter. The password is unchanged, and the role defaults to ROLE_CUSTOMER when it is missing or empty. |
| `AuthContext.RegistrationDataIdempotent` | CSpaceFrontEnd/CSpace-app/src/context/AuthContext.js:51-56 | Normalising already normalised data changes nothing. |
| `AuthContext.AuthProvider.Logout` | CSpaceFrontEnd/CSpace-app/src/context/AuthContext.js:74-77 | `logout` makes the state transition `AfterLogout`. |
| `AuthContext.AfterLogout` | CSpaceFrontEnd/CSpace-app/src/context/AuthContext.js:74-77 | "jwt" is removed, the user is cleared, and loading and the other storage keys are unchanged. |
| `AuthContext.LogoutIdempotent` | CSpaceFrontEnd/CSpace-app/src/context/AuthContext.js:74-77 | Logging out twice is the same as logging out once. |
| `Store.ClassOf` | CSpacebackend/src/main/java/com/Dhruv/service/CommentServiceImpl.java:65-78 | Which exception class each failure is thrown as. A missing comment is a requirement exception, and a non-author's delete is a user exception. |
| `Store.Database.constructor` | CSpacebackend/src/main/java/com/Dhruv/repository/RequirementRepository.java:12 | The JPA repositories' tables start empty: no project, requirement or comment, over the given users. The id invariant holds. |
| `ProjectService.NewProject` | CSpacebackend/src/main/java/com/Dhruv/service/ProjectServiceImpl.java:37-44 | The creator owns the new project and is on its team. Name, description, category and tags are copied. The team invariant holds. |
| `ProjectService.NewProjectAsWritten` | CSpacebackend/src/main/java/com/Dhruv/service/ProjectServiceImpl.java:36-49 | The project as the source returns it: the creator owns it and is on its team, having been added before the save and again after it. |
| `ProjectService.NewProjectAsWrittenRepeatsCreator` | CSpacebackend/src/main/java/com/Dhruv/service/ProjectServiceImpl.java:44-49 | As written, the returned project's team is the creator twice, so the team invariant fails. |
| `ProjectService.CreateProject` | CSpacebackend/src/main/java/com/Dhruv/service/ProjectServiceImpl.java:35-58 | An unknown creator throws and nothing changes. Otherwise `NewProject` is stored under a fresh id and returned, and the id invariant is kept. |
| `ProjectService.GetProjectById` | CSpacebackend/src/main/java/com/Dhruv/service/ProjectServiceImpl.java:106-112 | Returns the stored project, or a project exception when the id is absent. |
| `ProjectService.DeleteProject` | CSpacebackend/src/main/java/com/Dhruv/service/ProjectServiceImpl.java:115-134 | An unknown user throws and nothing changes. Any known user removes the id, with no ownership check, and gets "project deleted". |
| `ProjectService.PatchProject` | CSpacebackend/src/main/java/com/Dhruv/service/ProjectServiceImpl.java:141-156 | Each non-null name, description, tags and category replaces the stored one. Id, owner, team and chat are never touched. |
| `ProjectService.PatchNothing` | CSpacebackend/src/main/java/com/Dhruv/service/ProjectServiceImpl.java:141-156 | An update whose fields are all null changes nothing. |
| `ProjectService.PatchIdempotent` | CSpacebackend/src/main/java/com/Dhruv/service/ProjectServiceImpl.java:141-156 | Applying the same update twice equals applying it once. |
| `ProjectService.PatchKeepsTeamInvariant` | CSpacebackend/src/main/java/com/Dhruv/service/ProjectServiceImpl.java:141-156 | An update keeps the team invariant. |
| `ProjectService.UpdateProject` | CSpacebackend/src/main/java/com/Dhruv/service/ProjectServiceImpl.java:137-164 | The user is checked, then the project. The patched project is stored and returned, and nothing else changes. |
| `ProjectService.AddMember` | CSpacebackend/src/main/java/com/Dhruv/service/ProjectServiceImpl.java:183-187 | A user not on the team is appended to both the team and the chat users. A team member changes nothing. |
| `ProjectService.AddMemberIdempotent` | CSpacebackend/src/main/java/com/Dhruv/service/ProjectServiceImpl.java:183-187 | Adding the same user twice equals adding once. |
| `ProjectService.AddMemberKeepsInvariant` | CSpacebackend/src/main/java/com/Dhruv/service/ProjectServiceImpl.java:183-187 | Adding keeps the team and chat duplicate-free, with the chat within the team. |
| `ProjectService.AddUserToProject` | CSpacebackend/src/main/java/com/Dhruv/service/ProjectServiceImpl.java:179-190 | The project is checked, then the user. On success the project becomes `AddMember` of itself, and nothing else changes. |
| `ProjectService.RemoveMember` | CSpacebackend/src/main/java/com/Dhruv/service/ProjectServiceImpl.java:198-201 | A team member is removed from the team and the chat users. Anyone else changes nothing. |
| `ProjectService.RemoveMemberKeepsInvariant` | CSpacebackend/src/main/java/com/Dhruv/service/ProjectServiceImpl.java:198-201 | Removing keeps the invariant and leaves the user in neither list. |
| `ProjectService.AddThenRemove` | CSpacebackend/src/main/java/com/Dhruv/service/ProjectServiceImpl.java:179-203 | Adding a non-member and removing them again restores the project exactly. |
| `ProjectService.RemoveUserFromProject` | CSpacebackend/src/main/java/com/Dhruv/service/ProjectServiceImpl.java:193-203 | The project is checked, then the user. On success the project becomes `RemoveMember` of itself, and nothing else changes. |
| `ProjectService.NarrowExact` | CSpacebackend/src/main/java/com/Dhruv/service/ProjectServiceImpl.java:69-80 | The category pass then the tag pass keep exactly the wanted projects, in order: an exact category match and a tag list containing the tag, with null meaning no constraint. A failure is always the missing-field error, raised by a project without a category or tag list. |
| `ProjectService.NarrowTotal` | CSpacebackend/src/main/java/com/Dhruv/service/ProjectServiceImpl.java:69-80 | When every project has a category and tags, the passes never throw. |
| `ProjectService.NarrowNothing` | CSpacebackend/src/main/java/com/Dhruv/service/ProjectServiceImpl.java:69-80 | With no category and no tag, every project is kept. |
| `ProjectService.GetAllProjects` | CSpacebackend/src/main/java/com/Dhruv/service/ProjectServiceImpl.java:61-83 | Throws "No projects available" iff the repository is empty. |
| `ProjectService.GetAllProjectsExact` | CSpacebackend/src/main/java/com/Dhruv/service/ProjectServiceImpl.java:61-83 | The projects returned are exactly the wanted ones, in repository order. |
| `ProjectService.GetAllProjectsNoMatchIsEmpty` | CSpacebackend/src/main/java/com/Dhruv/service/ProjectServiceImpl.java:61-83 | A non-empty repository with nothing matching returns an empty list rather than throwing. |
| `ProjectService.GetProjectsByTeam` | CSpacebackend/src/main/java/com/Dhruv/service/ProjectServiceImpl.java:86-102 | Unlike `getAllProjects` it has no empty-repository check: the only failure is the missing-field error. On success it returns exactly the wanted projects whose team holds the user or whose owner is the user. |
| `ProjectService.GetProjectsByTeamExact` | CSpacebackend/src/main/java/com/Dhruv/service/ProjectServiceImpl.java:86-102 | With no empty-repository check, an empty repository gives an empty list rather than a failure. Projects that all carry a category and a tag list never make it throw. What it returns keeps repository order. |
| `RequirementService.GetAllRequirementsExceptUser` | CSpacebackend/src/main/java/com/Dhruv/service/RequirementServiceImpl.java:33-47 | Throws iff the table is empty. Otherwise it returns exactly the requirements whose project and owner are present and whose owner is not the user. |
| `RequirementService.ExceptUserNeverOwn` | CSpacebackend/src/main/java/com/Dhruv/service/RequirementServiceImpl.java:40-46 | The list keeps table order and never holds a requirement of a project the user owns. |
| `RequirementService.GetRequirementById` | CSpacebackend/src/main/java/com/Dhruv/service/RequirementServiceImpl.java:50-56 | Returns the stored requirement, or a requirement exception. |
| `RequirementService.NewRequirement` | CSpacebackend/src/main/java/com/Dhruv/service/RequirementServiceImpl.java:77-88 | Title, description, status, project id, priority and due date are copied from the request. The project is linked, and there is no assignee and no comment. |
| `RequirementService.NewRequirementFoundByProject` | CSpacebackend/src/main/java/com/Dhruv/service/RequirementServiceImpl.java:88 | A created requirement is found by `findByProjectId` for its project. |
| `RequirementService.CreateRequirement` | CSpacebackend/src/main/java/com/Dhruv/service/RequirementServiceImpl.java:65-92 | The user is checked, then the project. `NewRequirement` is stored under a fresh id and returned. |
| `RequirementService.PatchRequirement` | CSpacebackend/src/main/java/com/Dhruv/service/RequirementServiceImpl.java:115-133 | Each non-null description, due date, priority, status and title replaces the stored one. Assignee, project and comments never change. |
| `RequirementService.PatchRequirementNothing` | CSpacebackend/src/main/java/com/Dhruv/service/RequirementServiceImpl.java:115-133 | An update with no fields changes nothing, whatever assignee and project it names. |
| `RequirementService.PatchRequirementIdempotent` | CSpacebackend/src/main/java/com/Dhruv/service/RequirementServiceImpl.java:115-133 | Applying the same update twice equals applying it once. |
| `RequirementService.UpdateRequirement` | CSpacebackend/src/main/java/com/Dhruv/service/RequirementServiceImpl.java:95-140 | Checks run in order: caller, requirement, project, assignee. The first failure is reported and nothing changes. Otherwise the patch is stored and returned. |
| `RequirementService.DeleteRequirement` | CSpacebackend/src/main/java/com/Dhruv/service/RequirementServiceImpl.java:143-151 | The caller is checked, then the requirement. Afterwards the id is absent iff the call succeeded or the id was already absent. |
| `RequirementService.AddUserToRequirement` | CSpacebackend/src/main/java/com/Dhruv/service/RequirementServiceImpl.java:188-199 | The user is checked, then the requirement. The user becomes the assignee and nothing else changes. |
| `RequirementService.AssignedFoundByAssignee` | CSpacebackend/src/main/java/com/Dhruv/service/RequirementServiceImpl.java:194-196 | An assigned requirement is found by `findByAssigneeId` for its assignee. |
| `RequirementService.UpdateStatus` | CSpacebackend/src/main/java/com/Dhruv/service/RequirementServiceImpl.java:202-211 | A missing requirement throws. Otherwise only the status changes. |
| `RequirementService.StatusChangeFoundBySearch` | CSpacebackend/src/main/java/com/Dhruv/service/RequirementServiceImpl.java:207-210 | After a status change, the requirement matches a search for that status alone. |
| `RequirementRepository.SearchRequirements` | CSpacebackend/src/main/java/com/Dhruv/repository/RequirementRepository.java:16-27 | A row is returned iff it satisfies all four conditions, with a null parameter imposing nothing. |
| `RequirementRepository.SearchIsSubsequence` | CSpacebackend/src/main/java/com/Dhruv/repository/RequirementRepository.java:16-27 | The search keeps row order and adds nothing. |
| `RequirementRepository.SearchUnconstrained` | CSpacebackend/src/main/java/com/Dhruv/repository/RequirementRepository.java:16-27 | With all four parameters null, every row is returned. |
| `RequirementRepository.SearchStatusNarrows` | CSpacebackend/src/main/java/com/Dhruv/repository/RequirementRepository.java:19 | Adding a status parameter gives a subsequence of the result without it. |
| `RequirementRepository.SearchByAssignee` | CSpacebackend/src/main/java/com/Dhruv/repository/RequirementRepository.java:17-21 | With an assignee parameter, every row found is assigned to exactly that user, so unassigned rows are excluded. |
| `RequirementRepository.SearchByAssigneeAlone` | CSpacebackend/src/main/java/com/Dhruv/repository/RequirementRepository.java:14-21 | Searching by assignee alone gives the same rows as `findByAssigneeId`. |
| `RequirementRepository.FindByProjectId` | CSpacebackend/src/main/java/com/Dhruv/repository/RequirementRepository.java:35 | Returns exactly the rows linked to the project. |
| `RequirementRepository.FindByAssigneeId` | CSpacebackend/src/main/java/com/Dhruv/repository/RequirementRepository.java:14 | Returns exactly the rows assigned to the user. |
| `CommentService.CreateComment` | CSpacebackend/src/main/java/com/Dhruv/service/CommentServiceImpl.java:33-58 | A missing requirement is reported first, then a missing user, and nothing changes. Otherwise the comment stores the requirement, author, content and time under a fresh id, and its id is appended to the requirement's comments. |
| `CommentService.DeleteComment` | CSpacebackend/src/main/java/com/Dhruv/service/CommentServiceImpl.java:61-81 | A missing comment is reported first, then a missing user. Only the author removes the comment; anyone else gets a permission error and the comment stays. |
| `CommentService.FindCommentByRequirementId` | CSpacebackend/src/main/java/com/Dhruv/service/CommentServiceImpl.java:84-86 | Returns exactly the comments of that requirement. |
| `CommentService.NewCommentListed` | CSpacebackend/src/main/java/com/Dhruv/service/CommentServiceImpl.java:53-55 | A new comment is listed last for its requirement and for no other. |
| `CommentService.DeletedCommentUnlisted` | CSpacebackend/src/main/java/com/Dhruv/service/CommentServiceImpl.java:76 | A deleted comment is no longer listed, and the others keep their order. |
| `Text.Trim` | CSpaceFrontEnd/my_app/src/components/CreateProjectModal.js:23 | `trim` leaves no white space at either end. |
| `Text.TrimIsSlice` | CSpaceFrontEnd/my_app/src/components/CreateProjectModal.js:23 | `trim` takes a contiguous part of the input and drops only white space around it. |
| `Text.TrimEmpty` | CSpaceFrontEnd/my_app/src/pages/AllProjectsPage.js:47 | A trimmed string is empty iff the input is all white space. |
| `Text.Lower` | CSpaceFrontEnd/my_app/src/pages/AllProjectsPage.js:48 | `toLowerCase` keeps the length and maps each character. |
| `Text.Split` | CSpaceFrontEnd/my_app/src/components/CreateProjectModal.js:22 | `split` gives at least one piece, and no piece holds the separator. |
| `Text.JoinSplit` | CSpaceFrontEnd/my_app/src/components/CreateProjectModal.js:22 | Joining the pieces with the separator gives back the input. |
| `Text.SortStrings` | CSpaceFrontEnd/my_app/src/pages/BrowseRequirements.js:42 | `sort` gives a sorted permutation of its input. |
| `Text.SortStringsStrict` | CSpaceFrontEnd/my_app/src/pages/BrowseRequirements.js:42 | Sorting distinct strings orders them strictly. |
| `Seqs.Keep` | CSpaceFrontEnd/my_app/src/pages/BrowseRequirements.js:56 | The loop that rebuilds the array computes `Filter`. |
| `Seqs.FilterThen` | CSpaceFrontEnd/my_app/src/pages/BrowseRequirements.js:55-76 | Filtering the result of a filter by a second test equals filtering once by the conjunction. |
| `Seqs.FilterIsSubsequence` | CSpaceFrontEnd/my_app/src/pages/BrowseRequirements.js:56 | A filter keeps order and adds nothing. |

## Findings

| source | as written | input that shows it | evidently intended | confidence | as-written member | corrected member |
|---|---|---|---|---|---|---|
| CSpacebackend/src/main/java/com/Dhruv/service/ProjectServiceImpl.java:44-49 | The creator is added to the team before the save and again after it. | Any `createProject` call by an existing user: the returned team is that user twice. | The creator is on the team once. | low, not executed: Project.java, which would say whether `team` is a list or a set, is not part of this model | `ProjectService.NewProjectAsWrittenRepeatsCreator` | `ProjectService.NewProject` |

## Left out

**Front-end glue**
- The network, `async`/`await`, React effect scheduling, rendering and routing are left out. HTTP outcomes are arguments.
- `console` and `System.out` logging and the e-mail sent on assignment are left out.

**Strings and sorting**
- Lower-casing is ASCII only. JavaScript's and SQL's Unicode case mapping and locale rules are not modelled.
- `Text.SortStrings` orders strings by code point. JavaScript's default sort compares UTF-16 code units, which differ from code points only outside the Basic Multilingual Plane.
- `RequirementRepository.TitleOk` reads `LIKE %title%` as a plain substring test. SQL wildcards in the parameter (`%`, `_`) and the database's collation are not modelled.

**Back end**
- UserServiceImpl and UserRepository are not part of this model. A user lookup is membership in the users table, and a missing user is `UserNotFound`. This assumes `findUserById` throws on a missing id. If it returned null, `RequirementService.AddUserToRequirement` would report a missing requirement first, and for a missing user it would set a null assignee and then fail on `user.getEmail()`.
- JPA `save`, flush, detached entities, cascades and `@Transactional` are left out. Every write goes straight to the maps of `Store.Database`.
- `ProjectService.DeleteProject` does not cascade to requirements. A requirement whose project was deleted keeps a dangling link, which `OwnedByOther` treats as no project.
- The ids of projects, requirements and comments come from one counter, `nextId`, rather than from one sequence per table.
- The order in which `findAll` and the derived queries return rows is an input: a sequence of rows.
- The entity classes are not part of this model. As a modelling assumption, within one persistence session one row is one instance, so entities are identified by their ids. Users are ids in teams and chats.
- A project whose chat is null is not modelled, so the chat users are always a list.
- `ProjectService.CreateProject` does not model creating the chat row. The chat users start empty.

**Operations not named here**
- `searchProjects`, `getChatByProjectId` and `getUsersByProjectId` are left out.
- `getRequirementByProjectId`, `getRequirementsByAssigneeId` and `searchRequirements` in RequirementServiceImpl are left out. `getRequirementByProjectId` first throws a project exception for an unknown project (through `getProjectById`) and then returns `findByProjectId`. The other two only wrap their repository query, and their null checks can never fire.

**Weaker contracts and paths not modelled**
- `ProjectService.CreateProject`: stores and returns the corrected project of `ProjectService.NewProject`, whose team is the creator once. The source's second `add` on the returned project is modelled only by `ProjectService.NewProjectAsWritten` (see Findings).
- `ProjectService.RemoveUserFromProject`: the source neither calls `save` nor runs in a transaction, unlike `addUserToProject`. Whether the removal reaches the database depends on the JPA session; the model stores it.
- `CommentService.DeleteComment`: the deleted comment's id stays in its requirement's `comments` list, a dangling id, as the source does not touch the requirement.
- `BrowseRequirements.ApplyFilters`: with a search term set, a requirement whose title is null makes the source's search pass throw a `TypeError`, and so does a null description when the title does not match. The model types both as strings, so that error is not modelled.
- `AllProjects.ApplyFilters`: with a tag filter set, a truthy `tags` value that is not an array (a string, say) makes `some` fail, and a null element makes `toLowerCase` fail. The model types tags as an optional list of strings, so those `TypeError`s are not modelled.
- `BrowseRequirements.TagsOk`: a `tags` value that is a string, not an array, makes the source's `includes` a substring test. The model reads any non-array value as no tags.
- `AuthContext.AuthProvider.Login`: a resolved response whose `data` is null or undefined makes reading `res.data.jwt` throw a `TypeError`, which `login` rethrows although the request succeeded. `register` does the same. The model's response always carries a `data` object, so that error is not modelled.
- `AuthContext.RegistrationData`: a missing `fullName` or `email` makes the source's `trim` throw before the request is sent. The model types both as strings, so that error is not modelled.
- `RequirementService.CreateRequirement`: a request without a `projectId` reaches `findById(null)`, which throws. The model's request always carries the id.
- `RequirementService.UpdateRequirement`: a request without a `projectId` or a `userId` reaches `findById(null)`, which throws. The model's request always carries both ids.
- `RequirementService.DeleteRequirement`: returns the deleted id instead of the message text built from it.
- `CommentService.CreateComment`: the clock reading is the `now` argument.
